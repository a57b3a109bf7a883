/**
 The literal shell tokenizer: it accepts only simple commands separated by `&&`, `;` or newlines, and
 fails closed on anything whose expansion could change the command count. A byte is a `char` here.
 */
module ShellTokenizer {
  import opened Prelude

  predicate IsExpansion(c: char) { c == '$' || c == '`' }
  predicate IsBlank(c: char) { c == ' ' || c == '\t' || c == '\r' }

  /** Expansion, pipe, redirect, subshell, grouping, comment and glob bytes. */
  predicate IsMeta(c: char) {
    || IsExpansion(c) || c == '|' || c == '<' || c == '>' || c == '(' || c == ')' || c == '{' || c == '}'
    || c == '#' || c == '*' || c == '?' || c == '['
  }

  type Command = seq<string>

  // ----- the lexical level: quoting -----

  /** `HalfAnd` follows the first `&` of `&&`. */
  datatype Mode = Plain | PlainEscape | Single | Double | DoubleEscape | HalfAnd

  function NextMode(m: Mode, c: char): Mode {
    match m
    case Plain =>
      if c == '\\' then PlainEscape else if c == '\'' then Single else if c == '"' then Double
      else if c == '&' then HalfAnd else Plain
    case PlainEscape => Plain
    case Single => if c == '\'' then Plain else Single
    case Double => if c == '"' then Plain else if c == '\\' then DoubleEscape else Double
    case DoubleEscape => Double
    case HalfAnd => Plain
  }

  function ModeAfter(m: Mode, s: string): Mode {
    if s == "" then m else NextMode(ModeAfter(m, s[..|s| - 1]), s[|s| - 1])
  }

  /** The bytes that do not fail closed in each quoting mode. */
  predicate Allowed(m: Mode, c: char) {
    match m
    case Plain => !IsMeta(c)
    case Double => !IsExpansion(c)
    case HalfAnd => c == '&'
    case _ => true
  }

  datatype Symbol = Lit(c: char) | Space | Newline | And | Semi

  function Emitted(m: Mode, c: char): (ys: seq<Symbol>)
    ensures |ys| <= 1
  {
    match m
    case Plain =>
      if IsBlank(c) then [Space] else if c == '\n' then [Newline] else if c == ';' then [Semi]
      else if c == '\\' || c == '\'' || c == '"' || c == '&' then [] else [Lit(c)]
    case PlainEscape => [Lit(c)]
    case Single => if c == '\'' then [] else [Lit(c)]
    case Double => if c == '"' || c == '\\' then [] else [Lit(c)]
    case DoubleEscape => [Lit(c)]
    case HalfAnd => [And]
  }

  /** The symbols of `s` read from mode `m`, quotes removed. */
  function Symbols(m: Mode, s: string): seq<Symbol> {
    if s == "" then []
    else Symbols(m, s[..|s| - 1]) + Emitted(ModeAfter(m, s[..|s| - 1]), s[|s| - 1])
  }

  /** No byte of `s` fails closed, read from mode `m`. */
  ghost predicate Clean(m: Mode, s: string) {
    forall i :: 0 <= i < |s| ==> Allowed(ModeAfter(m, s[..i]), s[i])
  }

  // ----- the command level -----

  datatype Terminator = ByNewline | ByAnd | BySemi | ByEnd
  datatype Segment = Segment(words: Command, end: Terminator)

  /** Finished segments, finished words of the open segment, and the open word. */
  datatype Groups = Groups(done: seq<Segment>, words: Command, open: string)
  const NO_GROUPS := Groups([], [], "")

  function Closed(g: Groups): Command { if g.open == "" then g.words else g.words + [g.open] }

  function Grouped(g: Groups, y: Symbol): Groups {
    match y
    case Lit(c) => g.(open := g.open + [c])
    case Space => g.(words := Closed(g), open := "")
    case Newline => Groups(g.done + [Segment(Closed(g), ByNewline)], [], "")
    case And => Groups(g.done + [Segment(Closed(g), ByAnd)], [], "")
    case Semi => Groups(g.done + [Segment(Closed(g), BySemi)], [], "")
  }

  function Group(g: Groups, ys: seq<Symbol>): Groups {
    if ys == [] then g else Grouped(Group(g, ys[..|ys| - 1]), ys[|ys| - 1])
  }

  function Segments(g: Groups): seq<Segment> { g.done + [Segment(Closed(g), ByEnd)] }

  function Commands(segs: seq<Segment>): seq<Command> {
    if segs == [] then []
    else Commands(segs[..|segs| - 1]) + if segs[|segs| - 1].words == [] then [] else [segs[|segs| - 1].words]
  }

  /** The last command is followed by `&&`. */
  predicate Dangling(segs: seq<Segment>) {
    segs != [] && if segs[|segs| - 1].words == [] then Dangling(segs[..|segs| - 1]) else segs[|segs| - 1].end == ByAnd
  }

  /** Only newlines and the end of input may follow nothing. */
  ghost predicate NoEmptyCommand(segs: seq<Segment>) {
    forall s :: s in segs && s.words == [] ==> s.end == ByNewline || s.end == ByEnd
  }

  ghost predicate Accepts(input: string) {
    var segs := Segments(Group(NO_GROUPS, Symbols(Plain, input)));
    && Clean(Plain, input) && ModeAfter(Plain, input) == Plain
    && NoEmptyCommand(segs) && Commands(segs) != [] && !Dangling(segs)
  }

  /** What the tokenizer computes: the commands of an accepted input, and nothing otherwise. */
  ghost function Tokens(input: string): Option<seq<Command>> {
    if Accepts(input) then Some(Commands(Segments(Group(NO_GROUPS, Symbols(Plain, input))))) else None
  }

  // ----- one more byte, one more symbol -----

  lemma {:induction false} ReadOneMore(m: Mode, s: string, c: char)
    ensures ModeAfter(m, s + [c]) == NextMode(ModeAfter(m, s), c)
    ensures Symbols(m, s + [c]) == Symbols(m, s) + Emitted(ModeAfter(m, s), c)
    ensures Clean(m, s + [c]) <==> Clean(m, s) && Allowed(ModeAfter(m, s), c)
  {
    var t := s + [c];
    assert t[..|s|] == s;
    assert forall i :: 0 <= i < |s| ==> t[..i] == s[..i];
    if Clean(m, t) {
      assert Allowed(ModeAfter(m, t[..|s|]), t[|s|]);
      forall i | 0 <= i < |s| ensures Allowed(ModeAfter(m, s[..i]), s[i]) {
        assert Allowed(ModeAfter(m, t[..i]), t[i]);
      }
    }
  }

  lemma {:induction false} GroupOneMore(g: Groups, ys: seq<Symbol>, y: Symbol)
    ensures Group(g, ys + [y]) == Grouped(Group(g, ys), y)
  {
    assert (ys + [y])[..|ys|] == ys;
  }

  lemma {:induction false} SymbolsPrefix(m: Mode, s: string, n: nat)
    requires n <= |s|
    ensures Symbols(m, s[..n]) <= Symbols(m, s)
  {
    if n < |s| {
      SymbolsPrefix(m, s[..|s| - 1], n);
      assert s[..|s| - 1][..n] == s[..n];
    } else {
      assert s[..n] == s;
    }
  }

  lemma {:induction false} DonePrefix(g: Groups, ys: seq<Symbol>, n: nat)
    requires n <= |ys|
    ensures Group(g, ys[..n]).done <= Group(g, ys).done
  {
    if n < |ys| {
      DonePrefix(g, ys[..|ys| - 1], n);
      assert ys[..|ys| - 1][..n] == ys[..n];
    } else {
      assert ys[..n] == ys;
    }
  }

  /** An empty command found in a prefix is never repaired. */
  lemma {:induction false} EmptyCommandRejects(input: string, n: nat)
    requires n <= |input|
    requires !NoEmptyCommand(Group(NO_GROUPS, Symbols(Plain, input[..n])).done)
    ensures !Accepts(input)
  {
    var ys, all := Symbols(Plain, input[..n]), Symbols(Plain, input);
    SymbolsPrefix(Plain, input, n);
    assert all[..|ys|] == ys;
    DonePrefix(NO_GROUPS, all, |ys|);
    var done, whole := Group(NO_GROUPS, ys).done, Group(NO_GROUPS, all).done;
    var s :| s in done && s.words == [] && s.end != ByNewline && s.end != ByEnd;
    assert s in whole;
    assert s in Segments(Group(NO_GROUPS, all));
  }

  lemma {:induction false} CloseSegment(done: seq<Segment>, words: Command, end: Terminator)
    ensures var segs := done + [Segment(words, end)];
            && Commands(segs) == Commands(done) + (if words == [] then [] else [words])
            && Dangling(segs) == (if words == [] then Dangling(done) else end == ByAnd)
            && (NoEmptyCommand(segs) <==> NoEmptyCommand(done) && (words == [] ==> end == ByNewline || end == ByEnd))
  {
    var segs := done + [Segment(words, end)];
    assert segs[..|done|] == done;
    assert forall s :: s in segs <==> s in done || s == Segment(words, end);
  }

  // ----- the loop -----

  /** The variables of the loop. */
  datatype Scan = Scan(commands: seq<Command>, words: Command, current: string,
                       inSingle: bool, inDouble: bool, escaped: bool, requiresNext: bool)

  /** The three quoting flags as one mode. */
  function Flags(t: Scan): Mode {
    if t.escaped then (if t.inDouble then DoubleEscape else PlainEscape)
    else if t.inSingle then Single else if t.inDouble then Double else Plain
  }

  /** The bytes read so far are clean, leave mode `m`, and form the groups `g`. */
  ghost predicate Reads(read: string, m: Mode, g: Groups) {
    Clean(Plain, read) && ModeAfter(Plain, read) == m && Group(NO_GROUPS, Symbols(Plain, read)) == g
  }

  function Absorbed(g: Groups, ys: seq<Symbol>): Groups
    requires |ys| <= 1
  {
    if ys == [] then g else Grouped(g, ys[0])
  }

  lemma {:induction false} ReadsOneMore(read: string, m: Mode, g: Groups, c: char)
    requires Reads(read, m, g) && Allowed(m, c)
    ensures Reads(read + [c], NextMode(m, c), Absorbed(g, Emitted(m, c)))
  {
    hide Clean, ModeAfter, Symbols, Group, Grouped, NextMode, Emitted, Allowed;
    ReadOneMore(Plain, read, c);
    var ys := Symbols(Plain, read);
    if Emitted(m, c) == [] {
      assert ys + [] == ys;
    } else {
      assert Emitted(m, c) == [Emitted(m, c)[0]];
      GroupOneMore(NO_GROUPS, ys, Emitted(m, c)[0]);
    }
  }

  /** The loop variables stand for mode `m` and groups `g`. */
  ghost predicate Tracks(t: Scan, m: Mode, g: Groups) {
    && Flags(t) == m && !(t.inSingle && (t.inDouble || t.escaped))
    && t.words == g.words && t.current == g.open
    && Commands(g.done) == t.commands && Dangling(g.done) == t.requiresNext && NoEmptyCommand(g.done)
  }

  function FlushWord(t: Scan): Scan {
    if t.current == "" then t else t.(words := t.words + [t.current], current := "")
  }

  method FlushCommand(t: Scan, ghost g: Groups, ghost end: Terminator) returns (r: Option<Scan>)
    requires Tracks(t, Plain, g)
    ensures var g' := Groups(g.done + [Segment(Closed(g), end)], [], "");
            && (r.None? <==> Closed(g) == []) && (r.Some? ==> !r.value.requiresNext)
            && (r.Some? ==> Tracks(r.value.(requiresNext := end == ByAnd), Plain, g'))
            && (r.None? && end != ByNewline && end != ByEnd ==> !NoEmptyCommand(g'.done))
            && (r.None? && end == ByNewline ==> Tracks(t, Plain, g'))
  {
    CloseSegment(g.done, Closed(g), end);
    var u := FlushWord(t);
    if u.words == [] { return None; }
    return Some(u.(commands := u.commands + [u.words], words := [], requiresNext := false));
  }

  method QuotedByte(t: Scan, c: char, ghost m: Mode, ghost g: Groups) returns (r: Option<Scan>)
    requires Tracks(t, m, g) && m != Plain
    ensures r.Some? <==> Allowed(m, c)
    ensures r.Some? ==> Tracks(r.value, NextMode(m, c), Absorbed(g, Emitted(m, c)))
  {
    if t.escaped {
      return Some(t.(current := t.current + [c], escaped := false));
    }
    if t.inSingle {
      return Some(if c == '\'' then t.(inSingle := false) else t.(current := t.current + [c]));
    }
    if IsExpansion(c) { return None; }
    return Some(if c == '"' then t.(inDouble := false)
                else if c == '\\' then t.(escaped := true)
                else t.(current := t.current + [c]));
  }

  /** A byte outside quotes other than `&`. */
  method PlainByte(t: Scan, c: char, ghost g: Groups) returns (r: Option<Scan>)
    requires Tracks(t, Plain, g) && c != '&'
    ensures r.Some? ==> Allowed(Plain, c) && Tracks(r.value, NextMode(Plain, c), Absorbed(g, Emitted(Plain, c)))
    ensures r.None? ==> !Allowed(Plain, c) || !NoEmptyCommand(Absorbed(g, Emitted(Plain, c)).done)
  {
    if IsMeta(c) { return None; }
    if c == '\n' {
      r := FlushCommand(t, g, ByNewline);
      if r.None? { r := Some(t); }
    } else if c == ';' {
      r := FlushCommand(t, g, BySemi);
    } else if IsBlank(c) {
      r := Some(FlushWord(t));
    } else {
      r := Some(if c == '\\' then t.(escaped := true)
                else if c == '\'' then t.(inSingle := true)
                else if c == '"' then t.(inDouble := true)
                else t.(current := t.current + [c]));
    }
  }

  lemma {:induction false} ForbiddenRejects(input: string, n: nat)
    requires n < |input| && !Allowed(ModeAfter(Plain, input[..n]), input[n])
    ensures !Accepts(input)
  {
  }

  lemma EmptyRejects(input: string, n: nat, m: Mode, g: Groups)
    requires n <= |input| && Reads(input[..n], m, g) && !NoEmptyCommand(g.done)
    ensures !Accepts(input)
  {
    EmptyCommandRejects(input, n);
  }

  lemma UnfinishedRejects(input: string, m: Mode, g: Groups)
    requires Reads(input, m, g) && m != Plain
    ensures !Accepts(input)
  {
  }

  lemma NotAllowedRejects(input: string, n: nat, m: Mode, g: Groups)
    requires n < |input| && Reads(input[..n], m, g) && !Allowed(m, input[n])
    ensures !Accepts(input)
  {
    ForbiddenRejects(input, n);
  }

  /** `&` outside quotes must be the first of a pair that ends a command. */
  method AndPair(input: string, index: nat, t: Scan, ghost g: Groups) returns (r: Option<Scan>)
    requires index < |input| && input[index] == '&'
    requires Reads(input[..index], Plain, g) && Tracks(t, Plain, g)
    ensures r.None? ==> !Accepts(input)
    ensures r.Some? ==> index + 2 <= |input| && Tracks(r.value, Plain, Grouped(g, And))
                        && Reads(input[..index + 2], Plain, Grouped(g, And))
  {
    hide Reads, Tracks, Accepts, Grouped, NoEmptyCommand;
    if index + 1 >= |input| || input[index + 1] != '&' {
      LoneAndRejects(input, index, g);
      return None;
    }
    ReadsAndPair(input, index, g);
    r := FlushCommand(t, g, ByAnd);
    if r.None? {
      EmptyRejects(input, index + 2, Plain, Grouped(g, And));
    } else {
      r := Some(r.value.(requiresNext := true));
    }
  }

  lemma ReadsHalfAnd(input: string, index: nat, g: Groups)
    requires index < |input| && input[index] == '&' && Reads(input[..index], Plain, g)
    ensures Reads(input[..index + 1], HalfAnd, g)
  {
    hide Reads;
    ReadsOneMore(input[..index], Plain, g, '&');
    assert input[..index + 1] == input[..index] + ['&'];
  }

  lemma LoneAndRejects(input: string, index: nat, g: Groups)
    requires index < |input| && input[index] == '&' && Reads(input[..index], Plain, g)
    requires index + 1 < |input| ==> input[index + 1] != '&'
    ensures !Accepts(input)
  {
    hide Reads, Accepts;
    ReadsHalfAnd(input, index, g);
    if index + 1 >= |input| {
      assert input[..index + 1] == input;
      UnfinishedRejects(input, HalfAnd, g);
    } else {
      NotAllowedRejects(input, index + 1, HalfAnd, g);
    }
  }

  lemma ReadsAndPair(input: string, index: nat, g: Groups)
    requires index + 1 < |input| && input[index] == '&' && input[index + 1] == '&' && Reads(input[..index], Plain, g)
    ensures Reads(input[..index + 2], Plain, Grouped(g, And))
    ensures Grouped(g, And) == Groups(g.done + [Segment(Closed(g), ByAnd)], [], "")
  {
    hide Reads;
    ReadsHalfAnd(input, index, g);
    ReadsOneMore(input[..index + 1], HalfAnd, g, '&');
    assert input[..index + 2] == input[..index + 1] + ['&'];
  }

  /** Any other byte. */
  method OneByte(input: string, index: nat, t: Scan, ghost g: Groups) returns (r: Option<Scan>)
    requires index < |input| && (input[index] == '&' ==> Flags(t) != Plain)
    requires Reads(input[..index], Flags(t), g) && Tracks(t, Flags(t), g)
    ensures r.None? ==> !Accepts(input)
    ensures r.Some? ==> var g' := Absorbed(g, Emitted(Flags(t), input[index]));
                        && Tracks(r.value, NextMode(Flags(t), input[index]), g')
                        && Reads(input[..index + 1], NextMode(Flags(t), input[index]), g')
  {
    hide Reads, Tracks, Accepts;
    var c := input[index];
    if Allowed(Flags(t), c) {
      ReadsOneMore(input[..index], Flags(t), g, c);
      assert input[..index + 1] == input[..index] + [c];
    } else {
      NotAllowedRejects(input, index, Flags(t), g);
    }
    if t.escaped || t.inSingle || t.inDouble {
      r := QuotedByte(t, c, Flags(t), g);
    } else {
      r := PlainByte(t, c, g);
      if r.None? && Allowed(Plain, c) {
        EmptyRejects(input, index + 1, NextMode(Plain, c), Absorbed(g, Emitted(Plain, c)));
      }
    }
  }

  method Finish(input: string, t: Scan, ghost g: Groups) returns (r: Option<seq<Command>>)
    requires Reads(input, Flags(t), g) && Tracks(t, Flags(t), g)
    ensures r == Tokens(input)
  {
    if t.escaped || t.inSingle || t.inDouble { return None; }
    ghost var segs := Segments(g);
    CloseSegment(g.done, Closed(g), ByEnd);
    var u := t;
    if t.current != "" || t.words != [] {
      var last := FlushCommand(t, g, ByEnd);
      u := last.value;
    }
    assert NoEmptyCommand(segs) && Commands(segs) == u.commands && Dangling(segs) == u.requiresNext;
    if u.requiresNext || u.commands == [] { return None; }
    return Some(u.commands);
  }

  const START := Scan([], [], "", false, false, false, false)

  lemma NothingRead(input: string)
    ensures Reads(input[..0], Flags(START), NO_GROUPS) && Tracks(START, Flags(START), NO_GROUPS)
  {
    assert input[..0] == "";
  }

  method TokenizeSafeShellSequence(input: string) returns (r: Option<seq<Command>>)
    ensures r == Tokens(input)
  {
    var t := START;
    var index := 0;
    ghost var g := NO_GROUPS;
    NothingRead(input);
    hide Reads, Accepts, NextMode, Emitted, Grouped, Absorbed, Clean, Symbols, Group;
    while index < |input|
      invariant 0 <= index <= |input|
      invariant Reads(input[..index], Flags(t), g) && Tracks(t, Flags(t), g)
    {
      var next;
      if input[index] == '&' && Flags(t) == Plain {
        next := AndPair(input, index, t, g);
        g := Grouped(g, And);
        index := index + 2;
      } else {
        next := OneByte(input, index, t, g);
        g := Absorbed(g, Emitted(Flags(t), input[index]));
        index := index + 1;
      }
      if next.None? { return None; }
      t := next.value;
    }
    assert input[..|input|] == input;
    r := Finish(input, t, g);
  }

  // ----- what acceptance promises -----

  ghost predicate NonEmptyWords(cmd: Command) { forall w :: w in cmd ==> w != "" }

  ghost predicate Proper(cmds: seq<Command>) {
    forall c :: c in cmds ==> c != [] && NonEmptyWords(c)
  }

  lemma ProperPrefix(cmds: seq<Command>, n: nat)
    requires n <= |cmds| && Proper(cmds)
    ensures Proper(cmds[..n])
  {
    assert forall c :: c in cmds[..n] ==> c in cmds;
  }

  lemma {:induction false} WordsAreNonEmpty(ys: seq<Symbol>)
    ensures var g := Group(NO_GROUPS, ys);
            NonEmptyWords(g.words) && forall s :: s in g.done ==> NonEmptyWords(s.words)
  {
    if ys != [] { WordsAreNonEmpty(ys[..|ys| - 1]); }
  }

  lemma {:induction false} CommandsAreProper(segs: seq<Segment>)
    requires forall s :: s in segs ==> NonEmptyWords(s.words)
    ensures Proper(Commands(segs))
  {
    if segs != [] { CommandsAreProper(segs[..|segs| - 1]); }
  }

  /**
   Fail closed: an accepted input ends outside quotes, holds no expansion, pipe, redirect, subshell, grouping,
   comment or glob byte outside quotes and escapes, no expansion byte in double quotes and no lone `&`,
   and gives at least one command, none of them empty and none with an empty word.
   */
  lemma {:induction false} AcceptedIsLiteral(input: string)
    requires Tokens(input).Some?
    ensures ModeAfter(Plain, input) == Plain
    ensures forall i :: 0 <= i < |input| ==>
              var m, c := ModeAfter(Plain, input[..i]), input[i];
              && (m == Plain ==> c !in ['$', '`', '|', '<', '>', '(', ')', '{', '}', '#', '*', '?', '['])
              && (m == Double ==> c != '$' && c != '`')
              && (m == Plain && c == '&' ==> i + 1 < |input| && input[i + 1] == '&')
    ensures Tokens(input).value != [] && Proper(Tokens(input).value)
  {
    CleanIsLiteral(input);
    hide Clean, ModeAfter, NoEmptyCommand, Dangling;
    var ys := Symbols(Plain, input);
    WordsAreNonEmpty(ys);
    CommandsAreProper(Segments(Group(NO_GROUPS, ys)));
  }

  lemma {:induction false} CleanIsLiteral(input: string)
    requires Clean(Plain, input) && ModeAfter(Plain, input) == Plain
    ensures forall i :: 0 <= i < |input| ==>
              var m, c := ModeAfter(Plain, input[..i]), input[i];
              && (m == Plain ==> c !in ['$', '`', '|', '<', '>', '(', ')', '{', '}', '#', '*', '?', '['])
              && (m == Double ==> c != '$' && c != '`')
              && (m == Plain && c == '&' ==> i + 1 < |input| && input[i + 1] == '&')
  {
    forall i | 0 <= i < |input| && ModeAfter(Plain, input[..i]) == Plain && input[i] == '&'
      ensures i + 1 < |input| && input[i + 1] == '&'
    {
      assert input[..i + 1][..i] == input[..i];
      assert ModeAfter(Plain, input[..i + 1]) == HalfAnd;
      assert input[..|input|] == input;
    }
  }

  // ----- reading a text in parts -----

  ghost predicate Splits(m: Mode, a: string, b: string) {
    && ModeAfter(m, a + b) == ModeAfter(ModeAfter(m, a), b)
    && Symbols(m, a + b) == Symbols(m, a) + Symbols(ModeAfter(m, a), b)
    && (Clean(m, a + b) <==> Clean(m, a) && Clean(ModeAfter(m, a), b))
  }

  lemma {:induction false} SplitsOneMore(m: Mode, a: string, b: string, c: char)
    requires Splits(m, a, b)
    ensures Splits(m, a, b + [c])
  {
    hide Clean, ModeAfter, Symbols, NextMode, Emitted, Allowed;
    assert a + (b + [c]) == (a + b) + [c];
    ReadOneMore(m, a + b, c);
    ReadOneMore(ModeAfter(m, a), b, c);
    var x, y, z := Symbols(m, a), Symbols(ModeAfter(m, a), b), Emitted(ModeAfter(m, a + b), c);
    assert (x + y) + z == x + (y + z);
  }

  lemma {:induction false} SplitsNothing(m: Mode, a: string, b: string)
    requires b == ""
    ensures Splits(m, a, b)
  {
    assert a + b == a;
    var after := ModeAfter(m, a);
    assert ModeAfter(after, b) == after && Symbols(after, b) == [] && Clean(after, b);
    hide Clean, ModeAfter, Symbols;
    assert Symbols(m, a) + [] == Symbols(m, a);
  }

  lemma {:induction false} ReadConcat(m: Mode, a: string, b: string)
    ensures Splits(m, a, b)
  {
    if b == "" {
      SplitsNothing(m, a, b);
    } else {
      hide Splits, Clean, ModeAfter, Symbols;
      ReadConcat(m, a, b[..|b| - 1]);
      SplitsOneMore(m, a, b[..|b| - 1], b[|b| - 1]);
      assert b == b[..|b| - 1] + [b[|b| - 1]];
    }
  }

  lemma {:induction false} GroupConcat(g: Groups, xs: seq<Symbol>, ys: seq<Symbol>)
    ensures Group(g, xs + ys) == Group(Group(g, xs), ys)
  {
    if ys == [] {
      assert xs + ys == xs;
    } else {
      GroupConcat(g, xs, ys[..|ys| - 1]);
      assert (xs + ys)[..|xs + ys| - 1] == xs + ys[..|ys| - 1];
    }
  }

  /** Reading `text` from mode `m` is clean, ends in `m'` and takes groups `g` to `g'`. */
  ghost predicate Takes(text: string, m: Mode, g: Groups, m': Mode, g': Groups) {
    Clean(m, text) && ModeAfter(m, text) == m' && Group(g, Symbols(m, text)) == g'
  }

  lemma TakesBoth(a: string, b: string, m: Mode, g: Groups, m': Mode, g': Groups, m'': Mode, g'': Groups)
    requires Takes(a, m, g, m', g') && Takes(b, m', g', m'', g'')
    ensures Takes(a + b, m, g, m'', g'')
  {
    ReadConcat(m, a, b);
    GroupConcat(g, Symbols(m, a), Symbols(m', b));
  }

  lemma TakesByte(m: Mode, g: Groups, c: char)
    requires Allowed(m, c)
    ensures Takes([c], m, g, NextMode(m, c), Absorbed(g, Emitted(m, c)))
  {
    ReadOneMore(m, "", c);
    assert [] + [c] == [c];
    assert Symbols(m, [c]) == Emitted(m, c);
    if Emitted(m, c) != [] {
      var y := Emitted(m, c)[0];
      assert Emitted(m, c) == [] + [y];
      GroupOneMore(g, [], y);
    }
  }

  lemma TakesTwo(m: Mode, g: Groups, c: char, d: char)
    requires Allowed(m, c) && Allowed(NextMode(m, c), d)
    ensures var m', g' := NextMode(m, c), Absorbed(g, Emitted(m, c));
            Takes([c, d], m, g, NextMode(m', d), Absorbed(g', Emitted(m', d)))
  {
    var m', g' := NextMode(m, c), Absorbed(g, Emitted(m, c));
    TakesByte(m, g, c);
    TakesByte(m', g', d);
    TakesBoth([c], [d], m, g, m', g', NextMode(m', d), Absorbed(g', Emitted(m', d)));
    assert [c, d] == [c] + [d];
  }
}
