/**
 Length-prefixed frames, `<decimal length>:<bytes>`, from which reuse keys are computed. A digest of a
 concatenation of frames stands for its inputs only if the concatenation can be read in one way.
 */
module Framing {

  type Byte = b: int | 0 <= b < 256
  type Bytes = seq<Byte>

  const COLON: Byte := 58
  const ZERO_DIGIT: Byte := 48

  /** The length as `%d` prints it. */
  function Decimal(n: nat): (d: Bytes)
    ensures |d| > 0
  {
    (if n < 10 then [] else Decimal(n / 10)) + [ZERO_DIGIT + n % 10]
  }

  ghost function Value(d: Bytes): int {
    if d == [] then 0 else 10 * Value(d[..|d| - 1]) + (d[|d| - 1] - ZERO_DIGIT)
  }

  lemma ValueStep(d: Bytes, digit: Byte)
    ensures Value(d + [digit]) == 10 * Value(d) + (digit - ZERO_DIGIT)
  {
    assert (d + [digit])[..|d|] == d;
  }

  lemma {:induction false} DecimalReadsBack(n: nat)
    ensures Value(Decimal(n)) == n && COLON !in Decimal(n)
  {
    var digit := ZERO_DIGIT + n % 10;
    if n >= 10 {
      DecimalReadsBack(n / 10);
      assert Decimal(n) == Decimal(n / 10) + [digit];
      ValueStep(Decimal(n / 10), digit);
    } else {
      assert Decimal(n) == [] + [digit];
      ValueStep([], digit);
    }
  }

  function Frame(value: Bytes): Bytes { Decimal(|value|) + [COLON] + value }

  function Frames(values: seq<Bytes>): Bytes {
    if values == [] then [] else Frames(values[..|values| - 1]) + Frame(values[|values| - 1])
  }

  lemma FirstColonSplits(d: Bytes, r: Bytes, d': Bytes, r': Bytes)
    requires d + [COLON] + r == d' + [COLON] + r' && COLON !in d && COLON !in d'
    ensures d == d' && r == r'
  {
    var s, s' := d + [COLON] + r, d' + [COLON] + r';
    assert s[|d|] == COLON && s'[|d'|] == COLON;
    assert forall i :: 0 <= i < |d| ==> s[i] == d[i];
    assert forall i :: 0 <= i < |d'| ==> s'[i] == d'[i];
    assert |d| == |d'|;
    assert d == s[..|d|] && d' == s'[..|d|];
    assert r == s[|d| + 1..] && r' == s'[|d| + 1..];
  }

  /** No frame is cut out of another stream: the first frame of a stream is determined by its bytes. */
  lemma FrameIsPrefixFree(v: Bytes, rest: Bytes, v': Bytes, rest': Bytes)
    requires Frame(v) + rest == Frame(v') + rest'
    ensures v == v' && rest == rest'
  {
    hide Decimal, Value, Frame;
    DecimalReadsBack(|v|);
    DecimalReadsBack(|v'|);
    FrameSplits(v, rest);
    FrameSplits(v', rest');
    FirstColonSplits(Decimal(|v|), v + rest, Decimal(|v'|), v' + rest');
    SameLengthSplits(v, rest, v', rest');
  }

  lemma FrameSplits(v: Bytes, rest: Bytes)
    ensures Frame(v) + rest == Decimal(|v|) + [COLON] + (v + rest)
  {
    hide Decimal;
    assert (Decimal(|v|) + [COLON] + v) + rest == Decimal(|v|) + [COLON] + (v + rest);
  }

  lemma SameLengthSplits(a: Bytes, b: Bytes, a': Bytes, b': Bytes)
    requires a + b == a' + b' && |a| == |a'|
    ensures a == a' && b == b'
  {
    assert a == (a + b)[..|a|] && a' == (a' + b')[..|a|];
    assert b == (a + b)[|a|..] && b' == (a' + b')[|a|..];
  }

  lemma Associate(a: Bytes, b: Bytes, c: Bytes)
    ensures (a + b) + c == a + (b + c)
  {
  }

  lemma {:induction false} FramesAppend(values: seq<Bytes>, v: Bytes)
    ensures Frames(values + [v]) == Frames(values) + Frame(v)
  {
    assert (values + [v])[..|values|] == values;
  }

  lemma {:induction false} FramesFromFront(values: seq<Bytes>)
    requires values != []
    ensures Frames(values) == Frame(values[0]) + Frames(values[1..])
  {
    var init, last := values[..|values| - 1], values[|values| - 1];
    if init == [] {
      assert values[1..] == [];
    } else {
      FramesFromFront(init);
      FramesAppend(init[1..], last);
      assert values[1..] == init[1..] + [last];
      Associate(Frame(values[0]), Frames(init[1..]), Frame(last));
    }
  }

  /** A stream that begins with the frames of `xs` has `xs` as its first frames. */
  lemma {:induction false} FramesArePrefixFree(xs: seq<Bytes>, ys: seq<Bytes>, rest: Bytes)
    requires Frames(xs) + rest == Frames(ys) && |xs| <= |ys|
    ensures xs == ys[..|xs|] && rest == Frames(ys[|xs|..])
  {
    if xs == [] {
      assert ys[0..] == ys;
    } else {
      FramesFromFront(xs);
      FramesFromFront(ys);
      assert Frame(xs[0]) + (Frames(xs[1..]) + rest) == Frames(xs) + rest;
      FrameIsPrefixFree(xs[0], Frames(xs[1..]) + rest, ys[0], Frames(ys[1..]));
      FramesArePrefixFree(xs[1..], ys[1..], rest);
      assert ys[1..][|xs| - 1..] == ys[|xs|..];
      assert xs == [xs[0]] + xs[1..] && ys[..|xs|] == [ys[0]] + ys[1..][..|xs| - 1];
    }
  }

  /** Concatenated frames are uniquely decodable. */
  lemma FramesAreInjective(xs: seq<Bytes>, ys: seq<Bytes>)
    requires Frames(xs) == Frames(ys)
    ensures xs == ys
  {
    var (a, b) := if |xs| <= |ys| then (xs, ys) else (ys, xs);
    assert Frames(a) + [] == Frames(b);
    FramesArePrefixFree(a, b, []);
    var rest := b[|a|..];
    if rest != [] { FramesFromFront(rest); }
    assert rest == [];
    assert b[..|b|] == b;
  }

  // ----- the material of a reuse key -----

  /** `os.LookupEnv`: absent is not the same as empty. */
  type Environment = map<Bytes, Bytes>

  const TRUE_BYTES: Bytes := [116, 114, 117, 101]
  const FALSE_BYTES: Bytes := [102, 97, 108, 115, 101]

  function Variable(env: Environment, key: Bytes): seq<Bytes> {
    if key in env then [key, TRUE_BYTES, env[key]] else [key, FALSE_BYTES, []]
  }

  function Variables(keys: seq<Bytes>, env: Environment): (r: seq<Bytes>)
    ensures |r| == 3 * |keys|
  {
    if keys == [] then [] else Variables(keys[..|keys| - 1], env) + Variable(env, keys[|keys| - 1])
  }

  ghost predicate AgreeOn(keys: seq<Bytes>, env: Environment, env': Environment) {
    forall k :: k in keys ==> (k in env <==> k in env') && (k in env ==> env[k] == env'[k])
  }

  lemma VariableDeterminesValue(key: Bytes, env: Environment, key': Bytes, env': Environment)
    requires Variable(env, key) == Variable(env', key')
    ensures key == key' && AgreeOn([key], env, env')
  {
    var v, v' := Variable(env, key), Variable(env', key');
    assert v[0] == key && v'[0] == key' && v[1] == v'[1] && v[2] == v'[2];
    assert |TRUE_BYTES| != |FALSE_BYTES|;
  }

  lemma SplitAt(a: seq<Bytes>, b: seq<Bytes>, a': seq<Bytes>, b': seq<Bytes>)
    requires a + b == a' + b' && |a| == |a'|
    ensures a == a' && b == b'
  {
    assert a == (a + b)[..|a|] && a' == (a' + b')[..|a|];
    assert b == (a + b)[|a|..] && b' == (a' + b')[|a|..];
  }

  lemma AgreeOnBoth(xs: seq<Bytes>, ys: seq<Bytes>, env: Environment, env': Environment)
    requires AgreeOn(xs, env, env') && AgreeOn(ys, env, env')
    ensures AgreeOn(xs + ys, env, env')
  {
  }

  lemma {:induction false} VariablesDetermineEnvironment(keys: seq<Bytes>, env: Environment, keys': seq<Bytes>,
                                                         env': Environment)
    requires Variables(keys, env) == Variables(keys', env')
    ensures keys == keys' && AgreeOn(keys, env, env')
  {
    if keys != [] {
      var n := |keys| - 1;
      var a, b := Variables(keys[..n], env), Variable(env, keys[n]);
      var a', b' := Variables(keys'[..n], env'), Variable(env', keys'[n]);
      SplitAt(a, b, a', b');
      VariablesDetermineEnvironment(keys[..n], env, keys'[..n], env');
      VariableDeterminesValue(keys[n], env, keys'[n], env');
      AgreeOnBoth(keys[..n], [keys[n]], env, env');
      assert keys == keys[..n] + [keys[n]] && keys' == keys'[..n] + [keys'[n]];
    }
  }

  /** What a reuse key must stand for; `keys` are the normalised environment keys, PATH included. */
  datatype KeyInputs = KeyInputs(manifest: Bytes, source: Bytes, toolchain: Bytes,
                                 keys: seq<Bytes>, env: Environment, platform: Bytes)

  const KEY_LABEL: Bytes :=
    [110, 100, 101, 118, 45, 119, 111, 114, 107, 45, 114, 101, 117, 115, 101, 45, 118, 49]  // ndev-work-reuse-v1

  function EnvironmentMaterial(keys: seq<Bytes>, env: Environment): Bytes { Frames(Variables(keys, env)) }

  function KeyMaterial(k: KeyInputs): Bytes {
    Frames([KEY_LABEL, k.manifest, k.source, k.toolchain, EnvironmentMaterial(k.keys, k.env), k.platform])
  }

  /** Before hashing, the key material determines every declared input, nested environment included. */
  lemma KeyMaterialDeterminesInputs(a: KeyInputs, b: KeyInputs)
    requires KeyMaterial(a) == KeyMaterial(b)
    ensures a.manifest == b.manifest && a.source == b.source && a.toolchain == b.toolchain && a.platform == b.platform
    ensures a.keys == b.keys && AgreeOn(a.keys, a.env, b.env)
  {
    var xs := [KEY_LABEL, a.manifest, a.source, a.toolchain, EnvironmentMaterial(a.keys, a.env), a.platform];
    var ys := [KEY_LABEL, b.manifest, b.source, b.toolchain, EnvironmentMaterial(b.keys, b.env), b.platform];
    FramesAreInjective(xs, ys);
    assert xs[1] == ys[1] && xs[2] == ys[2] && xs[3] == ys[3] && xs[4] == ys[4] && xs[5] == ys[5];
    FramesAreInjective(Variables(a.keys, a.env), Variables(b.keys, b.env));
    VariablesDetermineEnvironment(a.keys, a.env, b.keys, b.env);
  }

  // ----- writing frames to a buffer -----

  class Buffer {
    var bytes: Bytes

    constructor ()
      ensures bytes == []
    {
      bytes := [];
    }

    method WriteFrame(value: Bytes)
      modifies this
      ensures bytes == old(bytes) + Frame(value)
    {
      bytes := bytes + Decimal(|value|) + [COLON];
      bytes := bytes + value;
    }
  }

  method WorkBatchEnvironmentMaterial(keys: seq<Bytes>, env: Environment) returns (material: Bytes)
    ensures material == EnvironmentMaterial(keys, env)
  {
    var buffer := new Buffer();
    for i := 0 to |keys|
      invariant buffer.bytes == Frames(Variables(keys[..i], env))
    {
      var key := keys[i];
      ghost var done := Variables(keys[..i], env);
      assert keys[..i + 1][..i] == keys[..i];
      var present := key in env;
      buffer.WriteFrame(key);
      buffer.WriteFrame(if present then TRUE_BYTES else FALSE_BYTES);
      buffer.WriteFrame(if present then env[key] else []);
      ThreeFrames(done, Variable(env, key));
    }
    assert keys[..|keys|] == keys;
    material := buffer.bytes;
  }

  lemma {:induction false} ThreeFrames(done: seq<Bytes>, v: seq<Bytes>)
    requires |v| == 3
    ensures Frames(done + v) == Frames(done) + Frame(v[0]) + Frame(v[1]) + Frame(v[2])
  {
    FramesAppend(done, v[0]);
    FramesAppend(done + [v[0]], v[1]);
    FramesAppend(done + [v[0]] + [v[1]], v[2]);
    assert done + v == done + [v[0]] + [v[1]] + [v[2]];
  }

  method WorkBatchKeyMaterial(k: KeyInputs) returns (material: Bytes)
    ensures material == KeyMaterial(k)
  {
    var environment := WorkBatchEnvironmentMaterial(k.keys, k.env);
    var buffer := new Buffer();
    buffer.WriteFrame(KEY_LABEL);
    buffer.WriteFrame(k.manifest);
    buffer.WriteFrame(k.source);
    ThreeFrames([], [KEY_LABEL, k.manifest, k.source]);
    buffer.WriteFrame(k.toolchain);
    buffer.WriteFrame(environment);
    buffer.WriteFrame(k.platform);
    ThreeFrames([KEY_LABEL, k.manifest, k.source], [k.toolchain, environment, k.platform]);
    assert [KEY_LABEL, k.manifest, k.source] + [k.toolchain, environment, k.platform]
        == [KEY_LABEL, k.manifest, k.source, k.toolchain, environment, k.platform];
    assert [] + [KEY_LABEL, k.manifest, k.source] == [KEY_LABEL, k.manifest, k.source];
    material := buffer.bytes;
  }
}
