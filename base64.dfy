/** Standard base64 (section 4 of RFC 4648) as Python 2's `base64.b64encode`
    produces it, and `base64.b64decode` (the `binascii.a2b_base64` loop) on
    inputs made of alphabet symbols followed by `=` padding. */
module Base64 {
  import opened Common
  import opened Struct

  /** The six bits one symbol carries. */
  type sextet = x: int | 0 <= x < 64

  const PAD: char := '='

  /** Message of the `binascii.Error` (re-raised as TypeError) for a bad final quantum. */
  const INCORRECT_PADDING: string := "Incorrect padding"

  predicate IsSymbol(c: char) {
    'A' <= c <= 'Z' || 'a' <= c <= 'z' || '0' <= c <= '9' || c == '+' || c == '/'
  }

  predicate AllSymbols(s: string) {
    forall i :: 0 <= i < |s| ==> IsSymbol(s[i])
  }

  predicate AllPad(s: string) {
    forall i :: 0 <= i < |s| ==> s[i] == PAD
  }

  /** The alphabet `A-Z a-z 0-9 + /`, indexed by value. */
  function Symbol(v: sextet): (c: char)
    ensures IsSymbol(c) && c != PAD
  {
    if v < 26 then ('A' as int + v) as char
    else if v < 52 then ('a' as int + v - 26) as char
    else if v < 62 then ('0' as int + v - 52) as char
    else if v == 62 then '+'
    else '/'
  }

  function Value(c: char): (v: sextet)
    requires IsSymbol(c)
    ensures Symbol(v) == c
  {
    if 'A' <= c <= 'Z' then c as int - 'A' as int
    else if 'a' <= c <= 'z' then c as int - 'a' as int + 26
    else if '0' <= c <= '9' then c as int - '0' as int + 52
    else if c == '+' then 62
    else 63
  }

  lemma {:induction false} ValueOfSymbol(v: sextet)
    ensures Value(Symbol(v)) == v
  {
  }

  /** `A` is the symbol of zero, and of nothing else. */
  lemma {:induction false} SymbolA(v: sextet)
    ensures Symbol(v) == 'A' <==> v == 0
  {
  }

  // ---------------------------------------------------------------- encoding

  /** Three bytes become four symbols, six bits each, most significant first. */
  function EncodeGroup(x: byte, y: byte, z: byte): string {
    [Symbol(x / 4), Symbol(x % 4 * 16 + y / 16), Symbol(y % 16 * 4 + z / 64), Symbol(z % 64)]
  }

  /** How many alphabet symbols the encoding of `m` bytes holds before its padding. */
  function SymbolCount(m: nat): nat {
    m / 3 * 4 + (if m % 3 == 0 then 0 else m % 3 + 1)
  }

  /** `base64.b64encode`: whole groups, then the final group. */
  function Encode(bs: seq<byte>): (s: string)
    ensures |s| == (|bs| + 2) / 3 * 4
    decreases |bs|
  {
    if |bs| < 3 then EncodeFinal(bs)
    else EncodeGroup(bs[0], bs[1], bs[2]) + Encode(bs[3..])
  }

  /** A final group of one byte gives two symbols and `==`, of two bytes three symbols and `=`. */
  function EncodeFinal(bs: seq<byte>): (s: string)
    requires |bs| < 3
    ensures |s| == if bs == [] then 0 else 4
  {
    if |bs| == 0 then ""
    else if |bs| == 1 then [Symbol(bs[0] / 4), Symbol(bs[0] % 4 * 16), PAD, PAD]
    else [Symbol(bs[0] / 4), Symbol(bs[0] % 4 * 16 + bs[1] / 16), Symbol(bs[1] % 16 * 4), PAD]
  }

  /** The first three symbols of an encoding that starts with a whole group. */
  lemma {:induction false} EncodeHead(bs: seq<byte>)
    requires |bs| >= 3
    ensures Encode(bs)[0] == Symbol(bs[0] / 4)
    ensures Encode(bs)[1] == Symbol(bs[0] % 4 * 16 + bs[1] / 16)
    ensures Encode(bs)[2] == Symbol(bs[1] % 16 * 4 + bs[2] / 64)
  {
    var s, g := Encode(bs), EncodeGroup(bs[0], bs[1], bs[2]);
    assert s == g + Encode(bs[3..]);
    assert s[0] == g[0] && s[1] == g[1] && s[2] == g[2];
  }

  /** A whole group comes off the front of an encoding. */
  lemma {:induction false} EncodeSplit(bs: seq<byte>)
    requires |bs| >= 3
    ensures Encode(bs) == EncodeGroup(bs[0], bs[1], bs[2]) + Encode(bs[3..])
  {
  }

  /** Eight bytes encode as two whole groups and a final group of two. */
  lemma {:induction false} EncodeEight(bs: seq<byte>)
    requires |bs| == 8
    ensures Encode(bs) == EncodeGroup(bs[0], bs[1], bs[2]) + EncodeGroup(bs[3], bs[4], bs[5]) + EncodeFinal(bs[6..])
  {
    EncodeSplit(bs);
    EncodeSplit(bs[3..]);
    assert bs[3..][3..] == bs[6..];
  }

  /** The groups of the worked examples: the bytes of 0, 1, 4096 and 2^26. */
  lemma {:induction false} ExampleGroups()
    ensures EncodeGroup(0, 0, 0) == "AAAA" && EncodeGroup(1, 0, 0) == "AQAA"
    ensures EncodeGroup(0, 16, 0) == "ABAA" && EncodeGroup(4, 0, 0) == "BAAA"
    ensures EncodeFinal([0, 0]) == "AAA="
  {
    GroupOf(0, 0, 0, 0, 0, 0, 0);
    GroupOf(1, 0, 0, 0, 16, 0, 0);
    GroupOf(0, 16, 0, 0, 1, 0, 0);
    GroupOf(4, 0, 0, 1, 0, 0, 0);
  }

  /** The groups of the largest id's bytes, all 255. */
  lemma {:induction false} MaxGroups()
    ensures EncodeGroup(255, 255, 255) == "////" && EncodeFinal([255, 255]) == "//8="
  {
    GroupOf(255, 255, 255, 63, 63, 63, 63);
  }

  /** A group is the symbols of its four sextets. */
  lemma {:induction false} GroupOf(x: byte, y: byte, z: byte, a: sextet, b: sextet, c: sextet, d: sextet)
    requires x / 4 == a && x % 4 * 16 + y / 16 == b && y % 16 * 4 + z / 64 == c && z % 64 == d
    ensures EncodeGroup(x, y, z) == [Symbol(a), Symbol(b), Symbol(c), Symbol(d)]
  {
  }

  // ---------------------------------------------------------------- decoding

  /** The inputs this model decodes: alphabet symbols, then only `=`.
      (`a2b_base64` also skips every other character; that is not modelled.) */
  predicate IsPadded(s: string) {
    && (forall i :: 0 <= i < |s| ==> IsSymbol(s[i]) || s[i] == PAD)
    && (forall i, j :: 0 <= i < j < |s| && s[i] == PAD ==> s[j] == PAD)
  }

  /** Four symbols become three bytes. */
  function DecodeGroup(a: char, b: char, c: char, d: char): seq<byte>
    requires IsSymbol(a) && IsSymbol(b) && IsSymbol(c) && IsSymbol(d)
  {
    var va, vb, vc, vd := Value(a), Value(b), Value(c), Value(d);
    [va * 4 + vb / 16, vb % 16 * 16 + vc / 4, vc % 4 * 64 + vd]
  }

  /** `base64.b64decode` on a run of symbols followed by `=` (`IsPadded`).
      Whole quanta of four symbols decode to three bytes. After them:
      nothing, or only `=` (which is then skipped), gives no more bytes; one
      symbol leaves six bits over and fails; two symbols need `==` and give
      one byte, dropping four bits; three symbols need `=` and give two
      bytes, dropping two bits. Dropped bits are not checked. The tests are
      written so that the function is total, but it follows Python only on
      `IsPadded` inputs, the only ones this model gives it. */
  function Decode(s: string): (r: Result<seq<byte>>)
    ensures r.Err? ==> r == Err(INCORRECT_PADDING)
    ensures r.Ok? ==> |r.value| * 4 <= |s| * 3
    decreases |s|
  {
    if |s| >= 4 && IsSymbol(s[0]) && IsSymbol(s[1]) && IsSymbol(s[2]) && IsSymbol(s[3]) then
      match Decode(s[4..])
      case Ok(rest) => Ok(DecodeGroup(s[0], s[1], s[2], s[3]) + rest)
      case Err(e) => Err(e)
    else DecodeFinal(s)
  }

  /** What is left once no whole quantum remains: at most three symbols, then `=`. */
  function DecodeFinal(s: string): (r: Result<seq<byte>>)
    ensures r.Err? ==> r == Err(INCORRECT_PADDING)
    ensures r.Ok? ==> |r.value| * 4 <= |s| * 3
  {
    if |s| == 0 || !IsSymbol(s[0]) then Ok([])
    else if |s| == 1 || !IsSymbol(s[1]) then Err(INCORRECT_PADDING)
    else if |s| == 2 || !IsSymbol(s[2]) then
      if |s| >= 4 then Ok([Value(s[0]) * 4 + Value(s[1]) / 16]) else Err(INCORRECT_PADDING)
    else if |s| >= 4 then
      Ok([Value(s[0]) * 4 + Value(s[1]) / 16, Value(s[1]) % 16 * 16 + Value(s[2]) / 4])
    else Err(INCORRECT_PADDING)
  }

  // ---------------------------------------------------------------- properties

  /** Arithmetic of reassembling a byte from the two symbols that share it. */
  lemma {:induction false} JoinFirst(x: byte, t: int)
    requires 0 <= t < 16
    ensures x / 4 * 4 + (x % 4 * 16 + t) / 16 == x
  {
    DivModUnique(x % 4 * 16 + t, 16, x % 4, t);
  }

  lemma {:induction false} JoinSecond(w: int, y: byte, u: int)
    requires 0 <= u < 4
    ensures (w * 16 + y / 16) % 16 * 16 + (y % 16 * 4 + u) / 4 == y
  {
    DivModUnique(w * 16 + y / 16, 16, w, y / 16);
    DivModUnique(y % 16 * 4 + u, 4, y % 16, u);
  }

  lemma {:induction false} JoinThird(w: int, z: byte)
    ensures (w * 4 + z / 64) % 4 * 64 + z % 64 == z
  {
    DivModUnique(w * 4 + z / 64, 4, w, z / 64);
  }

  lemma {:induction false} DecodeEncodeGroup(x: byte, y: byte, z: byte)
    ensures var g := EncodeGroup(x, y, z); DecodeGroup(g[0], g[1], g[2], g[3]) == [x, y, z]
  {
    ValueOfSymbol(x / 4);
    ValueOfSymbol(x % 4 * 16 + y / 16);
    ValueOfSymbol(y % 16 * 4 + z / 64);
    ValueOfSymbol(z % 64);
    JoinFirst(x, y / 16);
    JoinSecond(x % 4, y, z / 64);
    JoinThird(y % 16, z);
  }

  lemma {:induction false} DecodeEncodeTwo(x: byte, y: byte)
    ensures IsPadded(Encode([x, y]))
    ensures Decode(Encode([x, y])) == Ok([x, y])
  {
    var s := Encode([x, y]);
    ValueOfSymbol(x / 4);
    ValueOfSymbol(x % 4 * 16 + y / 16);
    ValueOfSymbol(y % 16 * 4);
    JoinFirst(x, y / 16);
    JoinSecond(x % 4, y, 0);
    assert s == [Symbol(x / 4), Symbol(x % 4 * 16 + y / 16), Symbol(y % 16 * 4 + 0), PAD];
  }

  lemma {:induction false} DecodeEncodeOne(x: byte)
    ensures IsPadded(Encode([x]))
    ensures Decode(Encode([x])) == Ok([x])
  {
    var s := Encode([x]);
    ValueOfSymbol(x / 4);
    ValueOfSymbol(x % 4 * 16);
    JoinFirst(x, 0);
    assert s == [Symbol(x / 4), Symbol(x % 4 * 16 + 0), PAD, PAD];
  }

  /** An encoding is `SymbolCount` symbols followed by padding. */
  lemma {:induction false} EncodeShape(bs: seq<byte>)
    ensures var s := Encode(bs);
      && SymbolCount(|bs|) <= |s|
      && AllSymbols(s[..SymbolCount(|bs|)])
      && AllPad(s[SymbolCount(|bs|)..])
    decreases |bs|
  {
    var s := Encode(bs);
    if |bs| >= 3 {
      var g, t := EncodeGroup(bs[0], bs[1], bs[2]), Encode(bs[3..]);
      assert s == g + t;
      EncodeShape(bs[3..]);
      var n := SymbolCount(|bs| - 3);
      assert SymbolCount(|bs|) == n + 4;
      assert s[..n + 4] == g + t[..n];
      assert s[n + 4..] == t[n..];
    }
  }

  /** Every encoding is a run of symbols followed by padding. */
  lemma {:induction false} EncodeIsPadded(bs: seq<byte>)
    ensures IsPadded(Encode(bs))
  {
    EncodeShape(bs);
    var s, n := Encode(bs), SymbolCount(|bs|);
    assert s == s[..n] + s[n..];
    SymbolsThenPad(s[..n], s[n..]);
  }

  /** A leading whole quantum decodes on its own. */
  lemma {:induction false} DecodeQuantum(g: string, t: string)
    requires |g| == 4 && AllSymbols(g)
    ensures Decode(g + t) == match Decode(t)
      case Ok(rest) => Ok(DecodeGroup(g[0], g[1], g[2], g[3]) + rest)
      case Err(e) => Err(e)
  {
    var s := g + t;
    assert s[4..] == t;
    assert s[0] == g[0] && s[1] == g[1] && s[2] == g[2] && s[3] == g[3];
  }

  lemma {:induction false} DecodeGroupThen(x: byte, y: byte, z: byte, t: string, rest: seq<byte>)
    requires Decode(t) == Ok(rest)
    ensures Decode(EncodeGroup(x, y, z) + t) == Ok([x, y, z] + rest)
  {
    DecodeEncodeGroup(x, y, z);
    DecodeQuantum(EncodeGroup(x, y, z), t);
  }

  lemma {:induction false} SplitThree<T>(xs: seq<T>)
    requires |xs| >= 3
    ensures xs == [xs[0], xs[1], xs[2]] + xs[3..]
  {
  }

  lemma {:induction false} DecodeEncodeStep(bs: seq<byte>)
    requires |bs| >= 3
    requires Decode(Encode(bs[3..])) == Ok(bs[3..])
    ensures Decode(Encode(bs)) == Ok(bs)
  {
    DecodeGroupThen(bs[0], bs[1], bs[2], Encode(bs[3..]), bs[3..]);
    SplitThree(bs);
  }

  /** Decoding undoes encoding. */
  lemma {:induction false} DecodeEncode(bs: seq<byte>)
    ensures IsPadded(Encode(bs))
    ensures Decode(Encode(bs)) == Ok(bs)
    decreases |bs|
  {
    EncodeIsPadded(bs);
    if |bs| >= 3 {
      DecodeEncode(bs[3..]);
      DecodeEncodeStep(bs);
    } else if |bs| == 2 {
      assert bs == [bs[0], bs[1]];
      DecodeEncodeTwo(bs[0], bs[1]);
    } else if |bs| == 1 {
      assert bs == [bs[0]];
      DecodeEncodeOne(bs[0]);
    }
  }

  /** How many bytes the first `n` symbols of a token decode to. */
  function DecodedLength(n: nat): nat {
    n / 4 * 3 + (if n % 4 == 0 then 0 else n % 4 - 1)
  }

  /** Whether `pads` padding characters complete a final quantum of `n` symbols. */
  predicate PaddingSuffices(n: nat, pads: nat) {
    n % 4 == 0 || (n % 4 == 2 && pads >= 2) || (n % 4 == 3 && pads >= 1)
  }

  lemma {:induction false} SymbolsThenPad(body: string, pad: string)
    requires AllSymbols(body) && AllPad(pad)
    ensures IsPadded(body + pad)
  {
  }

  /** The final quantum: fewer than four symbols, then padding. */
  lemma {:induction false} DecodeFinalOutcome(body: string, pad: string)
    requires AllSymbols(body) && AllPad(pad) && |body| < 4
    ensures Decode(body + pad).Ok? <==> PaddingSuffices(|body|, |pad|)
    ensures Decode(body + pad).Ok? ==> |Decode(body + pad).value| == DecodedLength(|body|)
    ensures Decode(body + pad).Err? ==> Decode(body + pad).msg == INCORRECT_PADDING
  {
    var s := body + pad;
    assert |s| >= 4 ==> s[3] == PAD;
    assert |body| >= 1 ==> s[0] == body[0];
    assert |body| >= 2 ==> s[1] == body[1];
    assert |body| >= 3 ==> s[2] == body[2];
    assert |body| < 1 && |s| >= 1 ==> s[0] == PAD;
    assert |body| < 2 && |s| >= 2 ==> s[1] == PAD;
    assert |body| < 3 && |s| >= 3 ==> s[2] == PAD;
  }

  lemma {:induction false} SplitQuantum(body: string, pad: string)
    requires |body| >= 4
    ensures body + pad == body[..4] + (body[4..] + pad)
  {
  }

  /** Exactly when decoding fails, and how many bytes it gives otherwise. */
  lemma {:induction false} DecodeOutcome(body: string, pad: string)
    requires AllSymbols(body) && AllPad(pad)
    ensures Decode(body + pad).Ok? <==> PaddingSuffices(|body|, |pad|)
    ensures Decode(body + pad).Ok? ==> |Decode(body + pad).value| == DecodedLength(|body|)
    ensures Decode(body + pad).Err? ==> Decode(body + pad).msg == INCORRECT_PADDING
    decreases |body|
  {
    if |body| >= 4 {
      DecodeOutcome(body[4..], pad);
      SplitQuantum(body, pad);
      DecodeQuantum(body[..4], body[4..] + pad);
      assert DecodedLength(|body|) == DecodedLength(|body| - 4) + 3;
    } else {
      DecodeFinalOutcome(body, pad);
    }
  }

  /** Two symbols and `==` decode to the byte `x` their first twelve bits hold. */
  lemma {:induction false} DecodeTwoSymbols(a: char, b: char, pad: string, x: byte)
    requires IsSymbol(a) && IsSymbol(b) && AllPad(pad) && |pad| >= 2
    requires Value(a) * 4 + Value(b) / 16 == x
    ensures Decode([a, b] + pad) == Ok([x])
  {
    var s := [a, b] + pad;
    assert s[0] == a && s[1] == b && s[2] == PAD;
    assert Decode(s) == DecodeFinal(s);
  }

  /** Three symbols and `=` decode to the bytes `x`, `y` their first sixteen bits hold. */
  lemma {:induction false} DecodeThreeSymbols(a: char, b: char, c: char, pad: string, x: byte, y: byte)
    requires IsSymbol(a) && IsSymbol(b) && IsSymbol(c) && AllPad(pad) && |pad| >= 1
    requires Value(a) * 4 + Value(b) / 16 == x && Value(b) % 16 * 16 + Value(c) / 4 == y
    ensures Decode([a, b, c] + pad) == Ok([x, y])
  {
    var s := [a, b, c] + pad;
    assert s[0] == a && s[1] == b && s[2] == c && s[3] == PAD;
    assert Decode(s) == DecodeFinal(s);
  }

  /** The byte the first two symbols of a group carry. */
  lemma {:induction false} FirstByteOf(a: char, b: char, x: byte, t: int)
    requires 0 <= t < 16 && a == Symbol(x / 4) && b == Symbol(x % 4 * 16 + t)
    ensures IsSymbol(a) && IsSymbol(b) && Value(a) * 4 + Value(b) / 16 == x
  {
    ValueOfSymbol(x / 4);
    ValueOfSymbol(x % 4 * 16 + t);
    JoinFirst(x, t);
  }

  /** The byte the second and third symbols of a group carry. */
  lemma {:induction false} SecondByteOf(b: char, c: char, w: int, y: byte, u: int)
    requires 0 <= w < 4 && 0 <= u < 4 && b == Symbol(w * 16 + y / 16) && c == Symbol(y % 16 * 4 + u)
    ensures IsSymbol(b) && IsSymbol(c) && Value(b) % 16 * 16 + Value(c) / 4 == y
  {
    ValueOfSymbol(w * 16 + y / 16);
    ValueOfSymbol(y % 16 * 4 + u);
    JoinSecond(w, y, u);
  }

  /** Two symbols carrying byte `x` (and four more bits `t`), then `==`. */
  lemma {:induction false} DecodeFirstByte(s: string, x: byte, t: int, pad: string)
    requires 0 <= t < 16 && |s| >= 2 && s[0] == Symbol(x / 4) && s[1] == Symbol(x % 4 * 16 + t)
    requires AllPad(pad) && |pad| >= 2
    ensures Decode(s[..2] + pad) == Ok([x])
  {
    assert s[..2] == [s[0], s[1]];
    FirstByteOf(s[0], s[1], x, t);
    DecodeTwoSymbols(s[0], s[1], pad, x);
  }

  /** Three symbols carrying bytes `x` and `y` (and two more bits `u`), then `=`. */
  lemma {:induction false} DecodeFirstTwoBytes(s: string, x: byte, y: byte, u: int, pad: string)
    requires 0 <= u < 4 && |s| >= 3
    requires s[0] == Symbol(x / 4) && s[1] == Symbol(x % 4 * 16 + y / 16) && s[2] == Symbol(y % 16 * 4 + u)
    requires AllPad(pad) && |pad| >= 1
    ensures Decode(s[..3] + pad) == Ok([x, y])
  {
    assert s[..3] == [s[0], s[1], s[2]];
    FirstByteOf(s[0], s[1], x, y / 16);
    SecondByteOf(s[1], s[2], x % 4, y, u);
    DecodeThreeSymbols(s[0], s[1], s[2], pad, x, y);
  }

  /** The first two symbols of an encoding give back its first byte. */
  lemma {:induction false} DecodePrefixTwo(bs: seq<byte>, pad: string)
    requires |bs| >= 1 && AllPad(pad) && |pad| >= 2
    ensures |Encode(bs)| >= 2 && DecodedLength(2) <= |bs|
    ensures Decode(Encode(bs)[..2] + pad) == Ok(bs[..DecodedLength(2)])
  {
    assert DecodedLength(2) == 1 && bs[..1] == [bs[0]];
    if |bs| >= 3 {
      EncodeHead(bs);
      DecodeFirstByte(Encode(bs), bs[0], bs[1] / 16, pad);
    } else if |bs| == 2 {
      DecodeFirstByte(EncodeFinal(bs), bs[0], bs[1] / 16, pad);
    } else {
      DecodeFirstByte(EncodeFinal(bs), bs[0], 0, pad);
    }
  }

  /** The first three symbols of an encoding give back its first two bytes. */
  lemma {:induction false} DecodePrefixThree(bs: seq<byte>, pad: string)
    requires |bs| >= 2 && AllPad(pad) && |pad| >= 1
    ensures |Encode(bs)| >= 3 && DecodedLength(3) <= |bs|
    ensures Decode(Encode(bs)[..3] + pad) == Ok(bs[..DecodedLength(3)])
  {
    assert DecodedLength(3) == 2 && bs[..2] == [bs[0], bs[1]];
    if |bs| >= 3 {
      EncodeHead(bs);
      DecodeFirstTwoBytes(Encode(bs), bs[0], bs[1], bs[2] / 64, pad);
    } else {
      DecodeFirstTwoBytes(EncodeFinal(bs), bs[0], bs[1], 0, pad);
    }
  }

  lemma {:induction false} SymbolCountStep(m: nat)
    requires SymbolCount(m) >= 4
    ensures m >= 3 && SymbolCount(m - 3) == SymbolCount(m) - 4
  {
  }

  lemma {:induction false} DecodeGroupPrefix(x: byte, y: byte, z: byte, t: string, n: nat, pad: string, rest: seq<byte>)
    requires n <= |t| && Decode(t[..n] + pad) == Ok(rest)
    ensures (EncodeGroup(x, y, z) + t)[..n + 4] + pad == EncodeGroup(x, y, z) + (t[..n] + pad)
    ensures Decode((EncodeGroup(x, y, z) + t)[..n + 4] + pad) == Ok([x, y, z] + rest)
  {
    var g := EncodeGroup(x, y, z);
    assert (g + t)[..n + 4] + pad == g + (t[..n] + pad);
    DecodeGroupThen(x, y, z, t[..n] + pad, rest);
  }

  lemma {:induction false} PrefixAfterThree<T>(xs: seq<T>, k: nat)
    requires 3 + k <= |xs|
    ensures [xs[0], xs[1], xs[2]] + xs[3..][..k] == xs[..k + 3]
  {
  }

  lemma {:induction false} DecodePrefixStep(bs: seq<byte>, n: nat, pad: string)
    requires |bs| >= 3 && n >= 4
    requires n - 4 <= |Encode(bs[3..])| && DecodedLength(n - 4) <= |bs| - 3
    requires Decode(Encode(bs[3..])[..n - 4] + pad) == Ok(bs[3..][..DecodedLength(n - 4)])
    ensures n <= |Encode(bs)| && DecodedLength(n) <= |bs|
    ensures Decode(Encode(bs)[..n] + pad) == Ok(bs[..DecodedLength(n)])
  {
    EncodeSplit(bs);
    DecodeGroupPrefix(bs[0], bs[1], bs[2], Encode(bs[3..]), n - 4, pad, bs[3..][..DecodedLength(n - 4)]);
    PrefixAfterThree(bs, DecodedLength(n - 4));
  }

  /** Padding alone decodes to nothing. */
  lemma {:induction false} DecodePadding(pad: string)
    requires AllPad(pad)
    ensures Decode(pad) == Ok([])
  {
    if pad != [] {
      assert !IsSymbol(pad[0]);
    }
  }

  /** The first `n` symbols of an encoding, completed by enough padding,
      decode to the first `DecodedLength(n)` bytes: a quantum cut short
      gives back every byte it finishes, exactly. */
  lemma {:induction false} DecodePrefix(bs: seq<byte>, n: nat, pad: string)
    requires n <= SymbolCount(|bs|) && n % 4 != 1
    requires AllPad(pad) && PaddingSuffices(n, |pad|)
    ensures n <= |Encode(bs)| && DecodedLength(n) <= |bs|
    ensures Decode(Encode(bs)[..n] + pad) == Ok(bs[..DecodedLength(n)])
    decreases n
  {
    if n >= 4 {
      SymbolCountStep(|bs|);
      DecodePrefix(bs[3..], n - 4, pad);
      DecodePrefixStep(bs, n, pad);
    } else {
      DecodeShortPrefix(bs, n, pad);
    }
  }

  /** `DecodePrefix` within the first quantum. */
  lemma {:induction false} DecodeShortPrefix(bs: seq<byte>, n: nat, pad: string)
    requires n < 4 && n <= SymbolCount(|bs|) && n % 4 != 1
    requires AllPad(pad) && PaddingSuffices(n, |pad|)
    ensures n <= |Encode(bs)| && DecodedLength(n) <= |bs|
    ensures Decode(Encode(bs)[..n] + pad) == Ok(bs[..DecodedLength(n)])
  {
    SymbolCountShort(|bs|);
    if n == 0 {
      DecodeNoSymbols(bs, pad);
    } else if n == 2 {
      DecodePrefixTwo(bs, pad);
    } else {
      DecodePrefixThree(bs, pad);
    }
  }

  /** An encoding cut before its first symbol decodes to nothing. */
  lemma {:induction false} DecodeNoSymbols(bs: seq<byte>, pad: string)
    requires AllPad(pad)
    ensures Decode(Encode(bs)[..0] + pad) == Ok(bs[..DecodedLength(0)])
  {
    assert Encode(bs)[..0] + pad == pad && bs[..DecodedLength(0)] == [];
    DecodePadding(pad);
  }

  lemma {:induction false} SymbolCountShort(m: nat)
    ensures SymbolCount(m) >= 2 ==> m >= 1
    ensures SymbolCount(m) >= 3 ==> m >= 2
  {
  }

  /** The encoding of `m` whole groups is a prefix of the encoding. */
  lemma {:induction false} EncodeSuffix(bs: seq<byte>, m: nat)
    requires 3 * m <= |bs|
    ensures 4 * m <= |Encode(bs)| && Encode(bs)[4 * m..] == Encode(bs[3 * m..])
    decreases m
  {
    if m > 0 {
      EncodeSuffix(bs[3..], m - 1);
      assert bs[3..][3 * (m - 1)..] == bs[3 * m..];
    }
  }

  lemma {:induction false} ZeroGroup(x: byte, y: byte, z: byte)
    requires var g := EncodeGroup(x, y, z); g[0] == 'A' && g[1] == 'A' && g[2] == 'A' && g[3] == 'A'
    ensures x == 0 && y == 0 && z == 0
  {
    SymbolA(x / 4);
    SymbolA(x % 4 * 16 + y / 16);
    SymbolA(y % 16 * 4 + z / 64);
    SymbolA(z % 64);
  }

  /** An encoding made only of `A` symbols (value zero) encodes only zero bytes. */
  lemma {:induction false} AllAIsZero(bs: seq<byte>)
    requires forall i :: 0 <= i < |Encode(bs)| ==> Encode(bs)[i] == 'A' || Encode(bs)[i] == PAD
    ensures forall j :: 0 <= j < |bs| ==> bs[j] == 0
    decreases |bs|
  {
    var s := Encode(bs);
    if |bs| >= 3 {
      var g, t := EncodeGroup(bs[0], bs[1], bs[2]), Encode(bs[3..]);
      assert s == g + t;
      assert s[0] == g[0] && s[1] == g[1] && s[2] == g[2] && s[3] == g[3];
      ZeroGroup(bs[0], bs[1], bs[2]);
      forall i | 0 <= i < |t|
        ensures t[i] == 'A' || t[i] == PAD
      {
        assert s[i + 4] == t[i];
      }
      AllAIsZero(bs[3..]);
      forall j | 0 <= j < |bs| ensures bs[j] == 0 {
        if j >= 3 { assert bs[j] == bs[3..][j - 3]; }
      }
    } else if |bs| == 2 {
      assert bs == [bs[0], bs[1]];
      ZeroTwo(bs[0], bs[1]);
    } else if |bs| == 1 {
      assert bs == [bs[0]];
      ZeroOne(bs[0]);
    }
  }

  lemma {:induction false} ZeroTwo(x: byte, y: byte)
    requires forall i :: 0 <= i < 4 ==> Encode([x, y])[i] == 'A' || Encode([x, y])[i] == PAD
    ensures x == 0 && y == 0
  {
    var s := Encode([x, y]);
    assert s == [Symbol(x / 4), Symbol(x % 4 * 16 + y / 16), Symbol(y % 16 * 4), PAD];
    assert s[0] == 'A';
    assert s[1] == 'A';
    assert s[2] == 'A';
    SymbolA(x / 4);
    SymbolA(x % 4 * 16 + y / 16);
    SymbolA(y % 16 * 4);
  }

  lemma {:induction false} ZeroOne(x: byte)
    requires forall i :: 0 <= i < 4 ==> Encode([x])[i] == 'A' || Encode([x])[i] == PAD
    ensures x == 0
  {
    var s := Encode([x]);
    assert s == [Symbol(x / 4), Symbol(x % 4 * 16), PAD, PAD];
    assert s[0] == 'A';
    assert s[1] == 'A';
    SymbolA(x / 4);
    SymbolA(x % 4 * 16);
  }

  /** If an encoding has only `A` symbols after `4 * m` of them, the bytes
      after the first `3 * m` are zero. */
  lemma {:induction false} ZeroTail(bs: seq<byte>, m: nat)
    requires 3 * m <= |bs|
    requires forall i :: 4 * m <= i < |Encode(bs)| ==> Encode(bs)[i] == 'A' || Encode(bs)[i] == PAD
    ensures forall j :: 3 * m <= j < |bs| ==> bs[j] == 0
  {
    EncodeSuffix(bs, m);
    var rest := bs[3 * m..];
    forall i | 0 <= i < |Encode(rest)| ensures Encode(rest)[i] == 'A' || Encode(rest)[i] == PAD {
      assert Encode(bs)[4 * m + i] == Encode(rest)[i];
    }
    AllAIsZero(rest);
    forall j | 3 * m <= j < |bs| ensures bs[j] == 0 {
      assert bs[j] == rest[j - 3 * m];
    }
  }

  /** `ZeroTail` for a cut anywhere: when an encoding has only `A` and `=`
      from symbol `n` on, the bytes from `DecodedLength(n + 1)` on are zero,
      because only the first `n` symbols carry bits of the bytes before. */
  lemma {:induction false} ZeroTailAt(bs: seq<byte>, n: nat)
    requires forall i :: n <= i < |Encode(bs)| ==> Encode(bs)[i] == 'A' || Encode(bs)[i] == PAD
    ensures forall j :: DecodedLength(n + 1) <= j < |bs| ==> bs[j] == 0
  {
    var m, r := n / 4, n % 4;
    assert DecodedLength(n + 1) == 3 * m + DecodedLength(r + 1);
    if 3 * m < |bs| {
      if r == 0 {
        ZeroTail(bs, m);
      } else {
        EncodeSuffix(bs, m);
        var rest := bs[3 * m..];
        forall i | r <= i < |Encode(rest)|
          ensures Encode(rest)[i] == 'A' || Encode(rest)[i] == PAD
        {
          assert Encode(bs)[4 * m + i] == Encode(rest)[i];
        }
        ZeroAfter(rest, r);
        forall j | DecodedLength(n + 1) <= j < |bs| ensures bs[j] == 0 {
          assert bs[j] == rest[j - 3 * m];
        }
      }
    }
  }

  /** `ZeroTailAt` within the first quantum. */
  lemma {:induction false} ZeroAfter(bs: seq<byte>, r: nat)
    requires 1 <= r <= 3
    requires forall i :: r <= i < |Encode(bs)| ==> Encode(bs)[i] == 'A' || Encode(bs)[i] == PAD
    ensures forall j :: DecodedLength(r + 1) <= j < |bs| ==> bs[j] == 0
  {
    var s := Encode(bs);
    if |bs| >= 3 {
      var g, t := EncodeGroup(bs[0], bs[1], bs[2]), Encode(bs[3..]);
      EncodeSplit(bs);
      assert s == g + t;
      forall i | 0 <= i < |t| ensures t[i] == 'A' || t[i] == PAD {
        assert s[i + 4] == t[i];
      }
      AllAIsZero(bs[3..]);
      forall i | r <= i < 4 ensures g[i] == 'A' {
        assert s[i] == g[i];
      }
      GroupTailZero(bs[0], bs[1], bs[2], r);
      forall j | DecodedLength(r + 1) <= j < |bs| ensures bs[j] == 0 {
        if j >= 3 { assert bs[j] == bs[3..][j - 3]; }
      }
    } else if |bs| == 2 && r == 1 {
      assert bs == [bs[0], bs[1]];
      assert s[1] == 'A' && s[2] == 'A';
      FinalTailZero(bs[0], bs[1]);
    }
  }

  /** The bytes a group's trailing `A` symbols carry are zero. */
  lemma {:induction false} GroupTailZero(x: byte, y: byte, z: byte, r: nat)
    requires 1 <= r <= 3
    requires forall i :: r <= i < 4 ==> EncodeGroup(x, y, z)[i] == 'A'
    ensures r == 1 ==> y == 0
    ensures r <= 2 ==> z == 0
  {
    var g := EncodeGroup(x, y, z);
    assert g[3] == 'A';
    SymbolA(z % 64);
    if r <= 2 {
      assert g[2] == 'A';
      SymbolA(y % 16 * 4 + z / 64);
    }
    if r == 1 {
      assert g[1] == 'A';
      SymbolA(x % 4 * 16 + y / 16);
    }
  }

  /** In a final group of two bytes, `A` as second and third symbol means a zero second byte. */
  lemma {:induction false} FinalTailZero(x: byte, y: byte)
    requires Encode([x, y])[1] == 'A' && Encode([x, y])[2] == 'A'
    ensures y == 0
  {
    var s := Encode([x, y]);
    assert s == [Symbol(x / 4), Symbol(x % 4 * 16 + y / 16), Symbol(y % 16 * 4), PAD];
    SymbolA(x % 4 * 16 + y / 16);
    SymbolA(y % 16 * 4);
  }

  /** A final group of two bytes, cut before its `=` and completed by one `A`,
      is the whole group of those bytes and a zero byte. */
  lemma {:induction false} FinalThenA(x: byte, y: byte)
    ensures EncodeGroup(x, y, 0) == EncodeFinal([x, y])[..3] + "A"
  {
    SymbolA(0);
  }
}
