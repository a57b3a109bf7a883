/**
 Quoting and its inverse: words built from bare, single-quoted, double-quoted and backslash-escaped pieces are read
 back exactly by the tokenizer.
 */
module ShellQuoting {
  import opened Prelude
  import opened ShellTokenizer

  // ----- words as a shell writes them -----

  /** A piece of a word and the bytes it stands for. */
  datatype Piece =
    | Bare(bytes: string)
    | SingleQuoted(bytes: string)
    | DoubleQuoted(bytes: string)
    | Escaped(bytes: string)
  type Word = seq<Piece>

  /** A byte that needs no quoting. */
  predicate IsBare(c: char) {
    && c !in [' ', '\t', '\r', '\n', ';', '&', '\\', '\'', '"']
    && c !in ['$', '`', '|', '<', '>', '(', ')', '{', '}', '#', '*', '?', '[']
  }

  ghost predicate Writable(word: Word) {
    forall p :: p in word && p.Bare? ==> forall c :: c in p.bytes ==> IsBare(c)
  }

  /** One byte of a piece. An embedded single quote closes, escapes and reopens its quotes; in double quotes the quote,
      the backslash and the two expansion bytes are escaped. */
  function ByteText(p: Piece, c: char): string {
    match p
    case Bare(_) => [c]
    case SingleQuoted(_) => if c == '\'' then "'\\''" else [c]
    case DoubleQuoted(_) => if c in ['"', '\\', '$', '`'] then ['\\', c] else [c]
    case Escaped(_) => ['\\', c]
  }

  function BodyText(p: Piece, w: string): string {
    if w == "" then "" else BodyText(p, w[..|w| - 1]) + ByteText(p, w[|w| - 1])
  }

  function QuoteText(p: Piece): string { if p.SingleQuoted? then "'" else if p.DoubleQuoted? then "\"" else "" }

  function PieceText(p: Piece): string { QuoteText(p) + BodyText(p, p.bytes) + QuoteText(p) }

  function WordText(word: Word): string {
    if word == [] then "" else WordText(word[..|word| - 1]) + PieceText(word[|word| - 1])
  }

  /** The bytes a word stands for. */
  function Meaning(word: Word): string {
    if word == [] then "" else Meaning(word[..|word| - 1]) + word[|word| - 1].bytes
  }

  function Meanings(words: seq<Word>): Command {
    if words == [] then [] else Meanings(words[..|words| - 1]) + [Meaning(words[|words| - 1])]
  }

  function AllMeanings(cmds: seq<seq<Word>>): seq<Command> {
    if cmds == [] then [] else AllMeanings(cmds[..|cmds| - 1]) + [Meanings(cmds[|cmds| - 1])]
  }

  predicate Blanks(s: string) { forall c :: c in s ==> c == ' ' || c == '\t' || c == '\r' }

  /** Words separated by `gap`. */
  function CommandText(words: seq<Word>, gap: string): string {
    if words == [] then ""
    else (if |words| == 1 then "" else CommandText(words[..|words| - 1], gap) + gap) + WordText(words[|words| - 1])
  }

  function SeparatorText(end: Terminator): string {
    match end
    case ByAnd => "&&"
    case BySemi => ";"
    case _ => "\n"
  }

  /** The commands, each but the last followed by its separator between two `pad`s. */
  function Render(cmds: seq<seq<Word>>, seps: seq<Terminator>, gap: string, pad: string): string
    requires |cmds| == |seps| + 1
  {
    (if |cmds| == 1 then ""
     else Render(cmds[..|cmds| - 1], seps[..|seps| - 1], gap, pad) + (pad + SeparatorText(seps[|seps| - 1]) + pad))
    + CommandText(cmds[|cmds| - 1], gap)
  }

  // ----- reading a piece -----

  /** The mode in which the body of a piece is read. */
  function BodyMode(p: Piece): Mode { if p.SingleQuoted? then Single else if p.DoubleQuoted? then Double else Plain }

  /** One byte of a piece is read as that byte. */
  lemma TakesOneByte(p: Piece, c: char, g: Groups)
    requires p.Bare? ==> IsBare(c)
    ensures Takes(ByteText(p, c), BodyMode(p), g, BodyMode(p), g.(open := g.open + [c]))
  {
    hide Takes, IsBare;
    match p
    case Bare(_) => TakesBare(c, g);
    case SingleQuoted(_) => if c == '\'' { EmbeddedQuote(g); } else { TakesInSingle(c, g); }
    case DoubleQuoted(_) =>
      if c in ['"', '\\', '$', '`'] { TakesEscape(Double, c, g); } else { TakesInDouble(c, g); }
    case Escaped(_) => TakesEscape(Plain, c, g);
  }

  lemma TakesBare(c: char, g: Groups)
    requires IsBare(c)
    ensures Takes([c], Plain, g, Plain, g.(open := g.open + [c]))
  {
    hide Takes;
    TakesByte(Plain, g, c);
  }

  lemma TakesInSingle(c: char, g: Groups)
    requires c != '\''
    ensures Takes([c], Single, g, Single, g.(open := g.open + [c]))
  {
    hide Takes;
    TakesByte(Single, g, c);
  }

  lemma TakesInDouble(c: char, g: Groups)
    requires c != '"' && c != '\\' && c != '$' && c != '`'
    ensures Takes([c], Double, g, Double, g.(open := g.open + [c]))
  {
    hide Takes;
    TakesByte(Double, g, c);
  }

  lemma TakesEscape(m: Mode, c: char, g: Groups)
    requires m == Plain || m == Double
    ensures Takes(['\\', c], m, g, m, g.(open := g.open + [c]))
  {
    hide Takes;
    TakesTwo(m, g, '\\', c);
  }

  lemma EmbeddedQuote(g: Groups)
    ensures Takes("'\\''", Single, g, Single, g.(open := g.open + ['\'']))
  {
    hide Takes;
    var g' := g.(open := g.open + ['\'']);
    TakesTwo(Single, g, '\'', '\\');
    TakesTwo(PlainEscape, g, '\'', '\'');
    TakesBoth("'\\", "''", Single, g, PlainEscape, g, Single, g');
    assert "'\\''" == "'\\" + "''";
  }

  lemma TakesNothing(m: Mode, g: Groups)
    ensures Takes("", m, g, m, g)
  {
  }

  lemma {:induction false} TakesBody(p: Piece, w: string, g: Groups)
    requires p.Bare? ==> forall c :: c in w ==> IsBare(c)
    ensures Takes(BodyText(p, w), BodyMode(p), g, BodyMode(p), g.(open := g.open + w))
  {
    hide Takes, ByteText, IsBare;
    if w == "" {
      assert g.open + "" == g.open;
      TakesNothing(BodyMode(p), g);
    } else {
      var init, c := w[..|w| - 1], w[|w| - 1];
      var g', g'' := g.(open := g.open + init), g.(open := g.open + w);
      assert forall x :: x in init ==> x in w;
      TakesBody(p, init, g);
      assert g.open + w == g.open + init + [c];
      TakesOneByte(p, c, g');
      TakesBoth(BodyText(p, init), ByteText(p, c), BodyMode(p), g, BodyMode(p), g', BodyMode(p), g'');
    }
  }

  lemma TakesQuoteMark(p: Piece, g: Groups)
    ensures Takes(QuoteText(p), Plain, g, BodyMode(p), g) && Takes(QuoteText(p), BodyMode(p), g, Plain, g)
  {
    hide Takes;
    match p
    case SingleQuoted(_) => TakesByte(Plain, g, '\''); TakesByte(Single, g, '\'');
    case DoubleQuoted(_) => TakesByte(Plain, g, '"'); TakesByte(Double, g, '"');
    case _ => TakesNothing(Plain, g);
  }

  lemma TakesPiece(p: Piece, g: Groups)
    requires p.Bare? ==> forall c :: c in p.bytes ==> IsBare(c)
    ensures Takes(PieceText(p), Plain, g, Plain, g.(open := g.open + p.bytes))
  {
    hide Takes, QuoteText, BodyText, IsBare;
    var g' := g.(open := g.open + p.bytes);
    TakesQuoteMark(p, g);
    TakesQuoteMark(p, g');
    TakesBody(p, p.bytes, g);
    TakesBoth(QuoteText(p), BodyText(p, p.bytes), Plain, g, BodyMode(p), g, BodyMode(p), g');
    TakesBoth(QuoteText(p) + BodyText(p, p.bytes), QuoteText(p), Plain, g, BodyMode(p), g', Plain, g');
  }

  /** A word, however its pieces are quoted, is read as the bytes it stands for. */
  lemma {:induction false} TakesWord(word: Word, g: Groups)
    requires Writable(word)
    ensures Takes(WordText(word), Plain, g, Plain, g.(open := g.open + Meaning(word)))
  {
    hide Takes, PieceText, IsBare, Writable;
    if word == [] {
      assert g.open + Meaning(word) == g.open;
      TakesNothing(Plain, g);
    } else {
      var init, p := word[..|word| - 1], word[|word| - 1];
      WritablePieces(word);
      TakesWord(init, g);
      WordGrows(init, p, g);
      assert word == init + [p];
    }
  }

  lemma WritablePieces(word: Word)
    requires Writable(word) && word != []
    ensures Writable(word[..|word| - 1])
    ensures word[|word| - 1].Bare? ==> forall c :: c in word[|word| - 1].bytes ==> IsBare(c)
  {
    hide IsBare;
    assert forall x :: x in word[..|word| - 1] ==> x in word;
    assert word[|word| - 1] in word;
  }

  lemma {:induction false} WordGrows(init: Word, p: Piece, g: Groups)
    requires Takes(WordText(init), Plain, g, Plain, g.(open := g.open + Meaning(init)))
    requires p.Bare? ==> forall c :: c in p.bytes ==> IsBare(c)
    ensures Takes(WordText(init + [p]), Plain, g, Plain, g.(open := g.open + Meaning(init + [p])))
  {
    hide Takes, PieceText, IsBare;
    assert (init + [p])[..|init|] == init;
    var g' := g.(open := g.open + Meaning(init));
    assert g.open + (Meaning(init) + p.bytes) == g'.open + p.bytes;
    TakesPiece(p, g');
    TakesBoth(WordText(init), PieceText(p), Plain, g, Plain, g', Plain, g'.(open := g'.open + p.bytes));
  }

  // ----- reading blanks and separators -----

  lemma {:induction false} TakesBlanks(s: string, g: Groups)
    requires Blanks(s)
    ensures Takes(s, Plain, g, Plain, if s == "" then g else g.(words := Closed(g), open := ""))
  {
    hide Takes;
    if s == "" {
      TakesNothing(Plain, g);
    } else {
      var init, c := s[..|s| - 1], s[|s| - 1];
      assert s == init + [c] && forall x :: x in init ==> x in s;
      assert c in s;
      TakesBlanks(init, g);
      var g' := if init == "" then g else g.(words := Closed(g), open := "");
      TakesByte(Plain, g', c);
      TakesBoth(init, [c], Plain, g, Plain, g', Plain, g.(words := Closed(g), open := ""));
    }
  }

  lemma TakesSeparator(end: Terminator, pad: string, g: Groups)
    requires end != ByEnd && Blanks(pad)
    ensures Takes(pad + SeparatorText(end) + pad, Plain, g, Plain, Groups(g.done + [Segment(Closed(g), end)], [], ""))
  {
    hide Takes;
    var g1 := if pad == "" then g else g.(words := Closed(g), open := "");
    var g2 := Groups(g.done + [Segment(Closed(g), end)], [], "");
    TakesBlanks(pad, g);
    assert Closed(g1) == Closed(g) && g1.done == g.done;
    TakesEnd(end, g1);
    TakesBoth(pad, SeparatorText(end), Plain, g, Plain, g1, Plain, g2);
    TakesBlanks(pad, g2);
    assert Closed(g2) == [];
    TakesBoth(pad + SeparatorText(end), pad, Plain, g, Plain, g2, Plain, g2);
  }

  lemma TakesEnd(end: Terminator, g: Groups)
    requires end != ByEnd
    ensures Takes(SeparatorText(end), Plain, g, Plain, Groups(g.done + [Segment(Closed(g), end)], [], ""))
  {
    hide Takes;
    match end
    case ByAnd => TakesTwo(Plain, g, '&', '&');
    case BySemi => TakesByte(Plain, g, ';');
    case ByNewline => TakesByte(Plain, g, '\n');
  }

  // ----- reading commands -----

  lemma {:induction false} MeaningsAt(words: seq<Word>)
    ensures |Meanings(words)| == |words|
    ensures forall i :: 0 <= i < |words| ==> Meanings(words)[i] == Meaning(words[i])
  {
    if words != [] { MeaningsAt(words[..|words| - 1]); }
  }

  lemma {:induction false} AllMeaningsAt(cmds: seq<seq<Word>>)
    ensures |AllMeanings(cmds)| == |cmds|
    ensures forall i :: 0 <= i < |cmds| ==> AllMeanings(cmds)[i] == Meanings(cmds[i])
  {
    if cmds != [] { AllMeaningsAt(cmds[..|cmds| - 1]); }
  }

  ghost predicate AllWritable(words: seq<Word>) { forall w :: w in words ==> Writable(w) }

  lemma {:induction false} TakesCommand(words: seq<Word>, gap: string, g: Groups)
    requires words != [] && AllWritable(words) && NonEmptyWords(Meanings(words)) && g.words == [] && g.open == ""
    requires Blanks(gap) && gap != ""
    ensures var cmd := Meanings(words);
            && cmd != []
            && Takes(CommandText(words, gap), Plain, g, Plain, Groups(g.done, cmd[..|cmd| - 1], cmd[|cmd| - 1]))
  {
    hide Takes, WordText, Meaning, Blanks, Writable;
    var n := |words| - 1;
    var init, w := words[..n], words[n];
    var before := Meanings(init);
    assert w in words && Meanings(words) == before + [Meaning(w)];
    assert Meanings(words)[..|before|] == before;
    var last := Groups(g.done, before, Meaning(w));
    if n == 0 {
      assert before == [] && "" + WordText(w) == WordText(w);
      assert "" + Meaning(w) == Meaning(w);
      TakesWord(w, g);
    } else {
      assert forall x :: x in init ==> x in words;
      assert forall x :: x in before ==> x in Meanings(words);
      TakesCommand(init, gap, g);
      var g1 := Groups(g.done, before[..|before| - 1], before[|before| - 1]);
      var g2 := Groups(g.done, before, "");
      assert before[|before| - 1] in before;
      assert before == before[..|before| - 1] + [before[|before| - 1]];
      assert Closed(g1) == before;
      TakesBlanks(gap, g1);
      TakesBoth(CommandText(init, gap), gap, Plain, g, Plain, g1, Plain, g2);
      TakesWord(w, g2);
      assert "" + Meaning(w) == Meaning(w);
      TakesBoth(CommandText(init, gap) + gap, WordText(w), Plain, g, Plain, g2, Plain, last);
    }
  }

  function Finished(cmds: seq<Command>, seps: seq<Terminator>): seq<Segment>
    requires |cmds| == |seps|
  {
    if cmds == [] then []
    else Finished(cmds[..|cmds| - 1], seps[..|seps| - 1]) + [Segment(cmds[|cmds| - 1], seps[|seps| - 1])]
  }

  lemma {:induction false} FinishedCommands(cmds: seq<Command>, seps: seq<Terminator>)
    requires |cmds| == |seps| && Proper(cmds)
    ensures Commands(Finished(cmds, seps)) == cmds && NoEmptyCommand(Finished(cmds, seps))
  {
    if cmds != [] {
      var n := |cmds| - 1;
      ProperPrefix(cmds, n);
      FinishedCommands(cmds[..n], seps[..n]);
      assert cmds[n] in cmds;
      CloseSegment(Finished(cmds[..n], seps[..n]), cmds[n], seps[n]);
      assert cmds == cmds[..n] + [cmds[n]];
    }
  }

  ghost predicate AllCommandsWritable(cmds: seq<seq<Word>>) { forall c :: c in cmds ==> AllWritable(c) }

  lemma {:induction false} TakesRender(cmds: seq<seq<Word>>, seps: seq<Terminator>, gap: string, pad: string)
    requires |cmds| == |seps| + 1 && Proper(AllMeanings(cmds)) && ByEnd !in seps && AllCommandsWritable(cmds)
    requires Blanks(gap) && gap != "" && Blanks(pad)
    ensures |AllMeanings(cmds)| == |cmds|
    ensures var n, all := |cmds| - 1, AllMeanings(cmds); var last := all[n];
            last != [] && Takes(Render(cmds, seps, gap, pad), Plain, NO_GROUPS, Plain,
                                Groups(Finished(all[..n], seps), last[..|last| - 1], last[|last| - 1]))
    decreases |cmds|, 1
  {
    AllMeaningsAt(cmds);
    hide Takes, CommandText, SeparatorText, AllMeanings, Meanings, Writable, Blanks;
    var n, all := |cmds| - 1, AllMeanings(cmds);
    var last := all[n];
    assert last in all && cmds[n] in cmds;
    MeaningsAt(cmds[n]);
    var g := Groups(Finished(all[..n], seps), [], "");
    var end := Groups(Finished(all[..n], seps), last[..|last| - 1], last[|last| - 1]);
    if n == 0 {
      assert "" + CommandText(cmds[n], gap) == CommandText(cmds[n], gap);
      TakesCommand(cmds[n], gap, NO_GROUPS);
    } else {
      var head, sep := Render(cmds[..n], seps[..n - 1], gap, pad), pad + SeparatorText(seps[n - 1]) + pad;
      TakesHead(cmds, seps, gap, pad);
      TakesCommand(cmds[n], gap, g);
      TakesBoth(head + sep, CommandText(cmds[n], gap), Plain, NO_GROUPS, Plain, g, Plain, end);
    }
  }

  /** Everything up to the last command. */
  lemma {:induction false} TakesHead(cmds: seq<seq<Word>>, seps: seq<Terminator>, gap: string, pad: string)
    requires |cmds| == |seps| + 1 > 1 && Proper(AllMeanings(cmds)) && ByEnd !in seps && AllCommandsWritable(cmds)
    requires Blanks(gap) && gap != "" && Blanks(pad) && |AllMeanings(cmds)| == |cmds|
    ensures var n, all := |cmds| - 1, AllMeanings(cmds);
            Takes(Render(cmds[..n], seps[..n - 1], gap, pad) + (pad + SeparatorText(seps[n - 1]) + pad), Plain,
                  NO_GROUPS, Plain, Groups(Finished(all[..n], seps), [], ""))
    decreases |cmds|, 0
  {
    hide Takes, CommandText, SeparatorText, AllMeanings, Meanings, Writable, Blanks, Render;
    var n, all := |cmds| - 1, AllMeanings(cmds);
    var before := all[n - 1];
    assert before in all && seps[n - 1] in seps;
    PrefixMeanings(cmds);
    assert all[..n] == AllMeanings(cmds[..n]);
    ProperPrefix(all, n);
    assert forall x :: x in cmds[..n] ==> x in cmds;
    TakesRender(cmds[..n], seps[..n - 1], gap, pad);
    assert before == all[..n][n - 1] && all[..n][..n - 1] == all[..n - 1];
    assert before[|before| - 1] in before;
    var g0 := Groups(Finished(all[..n - 1], seps[..n - 1]), before[..|before| - 1], before[|before| - 1]);
    assert Closed(g0) == before;
    TakesSeparator(seps[n - 1], pad, g0);
    TakesBoth(Render(cmds[..n], seps[..n - 1], gap, pad), pad + SeparatorText(seps[n - 1]) + pad, Plain, NO_GROUPS,
              Plain, g0, Plain, Groups(Finished(all[..n], seps), [], ""));
  }

  lemma PrefixMeanings(cmds: seq<seq<Word>>)
    requires cmds != []
    ensures AllMeanings(cmds)[..|AllMeanings(cmds)| - 1] == AllMeanings(cmds[..|cmds| - 1])
  {
  }

  lemma {:induction false} TakenIsAccepted(input: string, g: Groups)
    requires Takes(input, Plain, NO_GROUPS, Plain, g)
    requires NoEmptyCommand(g.done) && Closed(g) != []
    ensures Tokens(input) == Some(Commands(g.done) + [Closed(g)])
  {
    hide Clean, ModeAfter, Symbols, Group;
    CloseSegment(g.done, Closed(g), ByEnd);
  }

  // ----- the round trip -----

  lemma {:induction false} RoundTrip(cmds: seq<seq<Word>>, seps: seq<Terminator>, gap: string, pad: string)
    requires |cmds| == |seps| + 1 && ByEnd !in seps && AllCommandsWritable(cmds) && Proper(AllMeanings(cmds))
    requires Blanks(gap) && gap != "" && Blanks(pad)
    ensures Tokens(Render(cmds, seps, gap, pad)) == Some(AllMeanings(cmds))
  {
    hide Takes, Tokens, Render, AllMeanings, Blanks;
    TakesRender(cmds, seps, gap, pad);
    var n, all := |cmds| - 1, AllMeanings(cmds);
    var last := all[n];
    var g := Groups(Finished(all[..n], seps), last[..|last| - 1], last[|last| - 1]);
    assert last in all && last[|last| - 1] in last;
    assert Closed(g) == last;
    ProperPrefix(all, n);
    FinishedCommands(all[..n], seps);
    TakenIsAccepted(Render(cmds, seps, gap, pad), g);
    assert all == all[..n] + [last];
  }

  /**
   However each word is quoted, and whatever blanks stand between words and around `&&`, `;` or newlines, the rendered
   commands are read back exactly if and only if no command is empty and no word stands for no bytes.
   */
  lemma {:induction false} RoundTripIff(cmds: seq<seq<Word>>, seps: seq<Terminator>, gap: string, pad: string)
    requires |cmds| == |seps| + 1 && ByEnd !in seps && AllCommandsWritable(cmds)
    requires Blanks(gap) && gap != "" && Blanks(pad)
    ensures Tokens(Render(cmds, seps, gap, pad)) == Some(AllMeanings(cmds)) <==> Proper(AllMeanings(cmds))
  {
    hide Tokens, Render, Blanks;
    if Proper(AllMeanings(cmds)) {
      RoundTrip(cmds, seps, gap, pad);
    } else if Tokens(Render(cmds, seps, gap, pad)).Some? {
      AcceptedIsLiteral(Render(cmds, seps, gap, pad));
    }
  }

  /** An empty argument is dropped, so the argument list that is classified is not the one that runs. */
  lemma {:induction false} EmptyWordIsDropped()
    ensures Tokens("a ''") == Some([["a"]])
  {
    hide Takes, Tokens;
    var g1, g2 := Groups([], [], "a"), Groups([], ["a"], "");
    assert NO_GROUPS.open + ['a'] == "a" && g2.open + "" == "";
    TakesTwo(Plain, NO_GROUPS, 'a', ' ');
    TakesTwo(Plain, g2, '\'', '\'');
    TakesBoth("a ", "''", Plain, NO_GROUPS, Plain, g2, Plain, g2);
    assert "a " + "''" == "a ''";
    TakenIsAccepted("a ''", g2);
    assert Commands([]) + [["a"]] == [["a"]];
  }

  // ----- double quotes as a shell reads them -----

  /** The bytes a backslash escapes in double quotes (section 2.2.3 of the POSIX.1-2017 Shell Command Language), but for
      the newline it removes. */
  predicate Escapable(c: char) { c == '"' || c == '\\' || c == '$' || c == '`' }

  /** A body between double quotes: no expansion, no quote and no backslash left alone. */
  predicate IsBody(body: string) {
    body == "" ||
    if body[0] == '\\' then |body| > 1 && IsBody(body[2..])
    else body[0] != '"' && body[0] != '$' && body[0] != '`' && IsBody(body[1..])
  }

  /** What a shell reads: a backslash before any other byte stands for itself, and one before a newline joins lines. */
  function ShellReads(body: string): string
    requires IsBody(body)
  {
    if body == "" then ""
    else if body[0] != '\\' then [body[0]] + ShellReads(body[1..])
    else if Escapable(body[1]) then [body[1]] + ShellReads(body[2..])
    else if body[1] == '\n' then ShellReads(body[2..])
    else ['\\', body[1]] + ShellReads(body[2..])
  }

  /** What the tokenizer reads: a backslash gives the byte after it. */
  function TokenizerReads(body: string): string
    requires IsBody(body)
  {
    if body == "" then ""
    else if body[0] != '\\' then [body[0]] + TokenizerReads(body[1..])
    else [body[1]] + TokenizerReads(body[2..])
  }

  /** Every backslash escapes one of the four. */
  predicate OnlyEscapes(body: string)
    requires IsBody(body)
  {
    body == "" || if body[0] == '\\' then Escapable(body[1]) && OnlyEscapes(body[2..]) else OnlyEscapes(body[1..])
  }

  function Lines(k: nat): string { if k == 0 then "" else ['\n'] + Lines(k - 1) }

  lemma {:induction false} LinesEnd(k: nat, s: string)
    ensures Lines(k) + (['\n'] + s) == Lines(k + 1) + s
  {
    if k > 0 {
      LinesEnd(k - 1, s);
      assert Lines(k) + (['\n'] + s) == ['\n'] + (Lines(k - 1) + (['\n'] + s));
      assert Lines(k + 1) + s == ['\n'] + (Lines(k) + s);
    }
  }

  /** With a leading newline in front, one more byte on both sides: it is that newline, or they differ. */
  lemma {:induction false} OneByteBehind(c: char, x: string, k: nat, y: string)
    requires k > 0 && (c == '\n' ==> x != Lines(k) + y)
    ensures [c] + x != Lines(k) + ([c] + y)
  {
    var rest := Lines(k) + ([c] + y);
    assert Lines(k) == ['\n'] + Lines(k - 1);
    assert rest[0] == '\n' && ([c] + x)[0] == c;
    if c == '\n' {
      LinesEnd(k - 1, y);
      assert rest[1..] == Lines(k - 1) + (['\n'] + y);
      assert ([c] + x)[1..] == x;
    }
  }

  /** A newline that the shell drops and the tokenizer keeps is never made up for. */
  lemma {:induction false} NeverCatchesUp(body: string, k: nat)
    requires IsBody(body) && k > 0
    ensures ShellReads(body) != Lines(k) + TokenizerReads(body)
    decreases |body|
  {
    assert (Lines(k) + TokenizerReads(body))[0] == '\n';
    hide Lines;
    if body != "" {
      if body[0] != '\\' {
        NeverCatchesUp(body[1..], k);
        OneByteBehind(body[0], ShellReads(body[1..]), k, TokenizerReads(body[1..]));
      } else if body[1] == '\n' {
        NeverCatchesUp(body[2..], k + 1);
        LinesEnd(k, TokenizerReads(body[2..]));
      } else {
        assert ShellReads(body)[0] != '\n';
      }
    }
  }

  /** The tokenizer reads a double-quoted body as a shell does exactly when each backslash in it escapes a quote, a
      backslash or an expansion byte. */
  lemma {:induction false} ReadsAlikeIff(body: string)
    requires IsBody(body)
    ensures ShellReads(body) == TokenizerReads(body) <==> OnlyEscapes(body)
    decreases |body|
  {
    if body == "" {
    } else if body[0] != '\\' {
      ReadsAlikeIff(body[1..]);
      assert ShellReads(body)[1..] == ShellReads(body[1..]) && TokenizerReads(body)[1..] == TokenizerReads(body[1..]);
    } else if Escapable(body[1]) {
      ReadsAlikeIff(body[2..]);
      assert ShellReads(body)[1..] == ShellReads(body[2..]) && TokenizerReads(body)[1..] == TokenizerReads(body[2..]);
    } else if body[1] == '\n' {
      NeverCatchesUp(body[2..], 1);
      assert Lines(1) == ['\n'];
    } else {
      assert ShellReads(body)[0] == '\\' && TokenizerReads(body)[0] == body[1];
    }
  }

  /** The first byte of a body, or its first escape. */
  lemma TakesFirst(body: string, g: Groups) returns (n: nat, c: char)
    requires IsBody(body) && body != ""
    ensures 1 <= n <= |body| && IsBody(body[n..]) && TokenizerReads(body) == [c] + TokenizerReads(body[n..])
    ensures Takes(body[..n], Double, g, Double, g.(open := g.open + [c]))
  {
    hide Takes;
    if body[0] == '\\' {
      n, c := 2, body[1];
      TakesEscape(Double, c, g);
      assert body[..2] == ['\\', c];
    } else {
      n, c := 1, body[0];
      TakesInDouble(c, g);
      assert body[..1] == [c];
    }
  }

  lemma {:induction false} TakesDoubleBody(body: string, g: Groups)
    requires IsBody(body)
    ensures Takes(body, Double, g, Double, g.(open := g.open + TokenizerReads(body)))
    decreases |body|
  {
    hide Takes, IsBody, TokenizerReads;
    if body == "" {
      SomethingRead(body);
      assert g.open + TokenizerReads(body) == g.open;
      TakesNothing(Double, g);
    } else {
      var n, c := TakesFirst(body, g);
      var g' := g.(open := g.open + [c]);
      TakesDoubleBody(body[n..], g');
      var end := g.(open := g.open + TokenizerReads(body));
      assert end.open == g'.open + TokenizerReads(body[n..]);
      TakesBoth(body[..n], body[n..], Double, g, Double, g', Double, end);
      assert body == body[..n] + body[n..];
    }
  }

  function InDoubleQuotes(body: string): string { "\"" + body + "\"" }

  /** A double-quoted word by itself. */
  lemma {:induction false} DoubleQuotesGive(body: string)
    requires IsBody(body)
    ensures Tokens(InDoubleQuotes(body)) == if body == "" then None else Some([[TokenizerReads(body)]])
  {
    hide Takes, Tokens, IsBody, TokenizerReads, NoEmptyCommand;
    SomethingRead(body);
    TakesDoubleBody(body, NO_GROUPS);
    var w := TokenizerReads(body);
    var g := Groups([], [], w);
    assert NO_GROUPS.open + w == w;
    TakesQuoteMark(DoubleQuoted(body), NO_GROUPS);
    TakesQuoteMark(DoubleQuoted(body), g);
    TakesBoth("\"", body, Plain, NO_GROUPS, Double, NO_GROUPS, Double, g);
    TakesBoth("\"" + body, "\"", Plain, NO_GROUPS, Double, g, Plain, g);
    if body == "" {
      NothingAccepted(InDoubleQuotes(body));
    } else {
      NothingEmpty();
      TakenIsAccepted(InDoubleQuotes(body), g);
      assert Closed(g) == [] + [w] == [w];
      assert Commands(g.done) + [[w]] == [[w]];
    }
  }

  lemma NothingEmpty()
    ensures NoEmptyCommand([]) && Commands([]) == []
  {
  }

  lemma SomethingRead(body: string)
    requires IsBody(body)
    ensures TokenizerReads(body) == "" <==> body == ""
  {
  }

  /** A double-quoted word is read as the shell reads it if and only if it is not empty and each backslash in it escapes
      a quote, a backslash or an expansion byte. */
  lemma {:induction false} DoubleQuotesIff(body: string)
    requires IsBody(body)
    ensures Tokens(InDoubleQuotes(body)) == Some([[ShellReads(body)]]) <==> body != "" && OnlyEscapes(body)
  {
    hide IsBody, TokenizerReads, ShellReads, OnlyEscapes, Tokens;
    DoubleQuotesGive(body);
    ReadsAlikeIff(body);
    var a, b := [[ShellReads(body)]], [[TokenizerReads(body)]];
    assert a == b ==> a[0][0] == b[0][0];
  }

  lemma {:induction false} NothingAccepted(text: string)
    requires Takes(text, Plain, NO_GROUPS, Plain, NO_GROUPS)
    ensures Tokens(text).None?
  {
    hide Clean, ModeAfter, Symbols, Group;
    CloseSegment([], [], ByEnd);
    assert Segments(NO_GROUPS) == [] + [Segment([], ByEnd)];
    assert Commands([]) == [];
  }

  /** A path separator of another system loses its backslash in double quotes. */
  lemma {:induction false} DoubleQuotedBackslashIsDropped()
    ensures IsBody("a\\b") && ShellReads("a\\b") == "a\\b" && Tokens("\"a\\b\"") == Some([["ab"]])
  {
    hide Tokens;
    assert "a\\b"[1..] == "\\b" && "\\b"[2..] == "" && IsBody("") && IsBody("\\b");
    assert ShellReads("\\b") == "\\b" && TokenizerReads("\\b") == "b" && TokenizerReads("a\\b") == "ab";
    DoubleQuotesGive("a\\b");
    assert InDoubleQuotes("a\\b") == "\"a\\b\"";
  }
}
