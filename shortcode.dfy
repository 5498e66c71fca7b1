/** `confluence/shortcode.py`: Confluence's short codes for page ids. A code
    is the base64 of the id's eight little-endian bytes with every trailing
    `A` and `=` removed; decoding puts the `=` back but not the `A`s. */
module ShortCode {
  import opened Common
  import opened Text
  import opened Struct
  import opened Base64

  /** Message of the ValueError `code2id` raises. */
  const DECODE_ERROR: string := "Unable to decode shortcode into id number"

  /** Message of the ValueError `id2code` raises. */
  const ENCODE_ERROR: string := "Unable to encode as shortcode: id too large"

  /** The characters `rstrip('A=')` removes. */
  const STRIPPED: set<char> := {'A', PAD}

  /** `id2code`: pack, encode, strip. Out-of-range ids are refused, never truncated. */
  function Id2Code(id: int): (r: Result<string>)
    ensures r.Ok? <==> 0 <= id < ULONG_LIMIT
    ensures r.Err? ==> r.msg == ENCODE_ERROR
  {
    match Pack(id)
    case None => Err(ENCODE_ERROR)
    case Some(packed) => Ok(RStrip(Encode(packed), STRIPPED))
  }

  /** The `=` that `code2id` appends: the fewest that make the length a multiple of four. */
  function Padding(code: string): (p: string)
    ensures AllPad(p) && |p| < 4 && (|code| + |p|) % 4 == 0
  {
    if |code| % 4 != 0 then Times(PAD, 4 - |code| % 4) else ""
  }

  /** What `code2id` returns for a code of alphabet symbols and `=`. */
  function CodeValue(code: string): (r: Result<nat>)
    requires IsPadded(code)
    ensures r.Ok? ==> r.value < ULONG_LIMIT
    ensures r.Err? <==> Decode(code + Padding(code)).Err?
    ensures r.Err? ==> r.msg == DECODE_ERROR
  {
    match Decode(code + Padding(code))
    case Err(_) => Err(DECODE_ERROR)
    case Ok(decoded) => Ok(ReadULong(decoded))
  }

  /** `code2id`: pad, decode, zero-extend the decoded bytes to eight, unpack. */
  method Code2Id(code: string) returns (r: Result<nat>)
    requires IsPadded(code)
    ensures r == CodeValue(code)
    ensures r.Ok? ==> r.value < ULONG_LIMIT
    ensures r.Err? ==> r.msg == DECODE_ERROR
  {
    var padding := "";
    if |code| % 4 != 0 {
      padding := Times(PAD, 4 - |code| % 4);
    }
    var decoding := Decode(code + padding);
    if decoding.Err? {
      return Err(DECODE_ERROR);
    }
    var decoded := decoding.value;
    decoded := decoded + Times(0, ULONG_SIZE - |decoded|);
    var unpacked := UnpackFrom(decoded);
    ReadULongOf(decoding.value, decoded);
    r := Ok(unpacked.value);
  }

  // ---------------------------------------------------------------- shape of a code

  /** The full encoding an in-range id's code is cut from. */
  function Encoding(id: int): (s: string)
    requires 0 <= id < ULONG_LIMIT
    ensures |s| == 12
  {
    Encode(Pack(id).value)
  }

  /** A code is a prefix of the twelve-character encoding, at most eleven
      symbols long, with no `=` and no final `A`; what was cut off is only `A` and `=`. */
  lemma {:induction false} Id2CodeShape(id: int)
    requires 0 <= id < ULONG_LIMIT
    ensures var code, s := Id2Code(id).value, Encoding(id);
      && |code| <= 11
      && code == s[..|code|]
      && AllSymbols(code)
      && PAD !in code
      && (code == [] || code[|code| - 1] != 'A')
      && forall i :: |code| <= i < |s| ==> s[i] == 'A' || s[i] == PAD
  {
    var code, s := Id2Code(id).value, Encoding(id);
    EncodeShape(Pack(id).value);
    assert SymbolCount(8) == 11;
    assert s[11] == PAD;
    assert |code| <= 11;
    assert forall i :: 0 <= i < |code| ==> code[i] == s[..11][i];
  }

  /** On codes made of symbols only, `code2id` fails exactly when the length
      leaves one symbol over a multiple of four. */
  lemma {:induction false} CodeValueOutcome(code: string)
    requires AllSymbols(code)
    ensures IsPadded(code)
    ensures CodeValue(code).Err? <==> |code| % 4 == 1
  {
    DecodeOutcome(code, Padding(code));
  }

  // ---------------------------------------------------------------- round trip

  /** `code2id(id2code(n))`: an error when the code leaves one symbol over,
      and otherwise `n` cut down to the bytes the code's symbols complete. */
  lemma {:induction false} CodeValueOfId(id: int)
    requires 0 <= id < ULONG_LIMIT
    ensures var code := Id2Code(id).value;
      && IsPadded(code)
      && DecodedLength(|code|) <= ULONG_SIZE
      && CodeValue(code) == if |code| % 4 == 1 then Err(DECODE_ERROR) else Ok(id % Pow256(DecodedLength(|code|)))
  {
    var code, bs := Id2Code(id).value, Pack(id).value;
    Id2CodeShape(id);
    CodeValueOutcome(code);
    if |code| % 4 != 1 {
      var n := |code|;
      DecodePrefix(bs, n, Padding(code));
      var k := DecodedLength(n);
      assert Decode(code + Padding(code)) == Ok(bs[..k]);
      LittleEndianPrefix(bs, k);
    }
  }

  /** With a length that is a multiple of four the stripped symbols were all
      zero bytes, so the id fits in the bytes the code completes. */
  lemma {:induction false} WholeQuantaKeepId(id: int)
    requires 0 <= id < ULONG_LIMIT
    requires |Id2Code(id).value| % 4 == 0
    ensures id < Pow256(DecodedLength(|Id2Code(id).value|))
  {
    var code, bs := Id2Code(id).value, Pack(id).value;
    Id2CodeShape(id);
    var m := |code| / 4;
    ZeroTail(bs, m);
    var k := 3 * m;
    assert bs == bs[..k] + bs[k..];
    LittleEndianZeroExtend(bs[..k], bs[k..]);
  }

  /** The round trip holds when the code is a run of whole quanta or is eleven symbols long. */
  lemma {:induction false} RoundTrip(id: int)
    requires 0 <= id < ULONG_LIMIT
    requires |Id2Code(id).value| % 4 == 0 || |Id2Code(id).value| == 11
    ensures IsPadded(Id2Code(id).value) && CodeValue(Id2Code(id).value) == Ok(id)
  {
    var code := Id2Code(id).value;
    CodeValueOfId(id);
    var k := DecodedLength(|code|);
    if |code| % 4 == 0 {
      WholeQuantaKeepId(id);
    } else {
      assert k == ULONG_SIZE;
    }
    DivModUnique(id, Pow256(k), 0, id);
  }

  /** The round trip holds exactly when the code does not leave one symbol
      over and the id fits in the bytes the code completes. */
  lemma {:induction false} RoundTripExactly(id: int)
    requires 0 <= id < ULONG_LIMIT
    ensures var code := Id2Code(id).value;
      IsPadded(code) &&
      (CodeValue(code) == Ok(id) <==> |code| % 4 != 1 && id < Pow256(DecodedLength(|code|)))
  {
    var code := Id2Code(id).value;
    CodeValueOfId(id);
    var p := Pow256(DecodedLength(|code|));
    if id < p {
      DivModUnique(id, p, 0, id);
    }
  }

  /** One more `A` after a code, the zero symbol `id2code` strips: when the
      code is a run of whole quanta the extra symbol is left over on its own
      and refused; otherwise it fills the bits of the byte the code cut short
      with zeros, and the id comes back. */
  lemma {:induction false} ExtraSymbol(id: int)
    requires 0 <= id < ULONG_LIMIT
    ensures var code := Id2Code(id).value;
      IsPadded(code + "A") &&
      CodeValue(code + "A") == if |code| % 4 == 0 then Err(DECODE_ERROR) else Ok(id)
  {
    var code, bs := Id2Code(id).value, Pack(id).value;
    CodeIsSymbols(id);
    ExtraA(code);
    if |code| % 4 != 0 {
      Id2CodeShape(id);
      if |code| == 11 {
        ElevenThenA(id, bs, code);
      } else {
        ShortThenA(id, bs, code);
      }
    }
  }

  /** `ExtraSymbol` for a code of at most ten symbols: with the `A` it is a
      longer prefix of the encoding, and the bytes it adds are zero. */
  lemma {:induction false} ShortThenA(id: int, bs: seq<byte>, code: string)
    requires |bs| == ULONG_SIZE && LittleEndian(bs) == id
    requires |code| <= 10 && |code| % 4 != 0 && code == Encode(bs)[..|code|]
    requires forall i :: |code| <= i < |Encode(bs)| ==> Encode(bs)[i] == 'A' || Encode(bs)[i] == PAD
    requires IsPadded(code + "A")
    ensures CodeValue(code + "A") == Ok(id)
  {
    PrefixThenAValue(bs, code);
    ZeroTailKeepsValue(bs, |code|);
  }

  /** `code2id` of a code and an `A` that are a prefix of the encoding. */
  lemma {:induction false} PrefixThenAValue(bs: seq<byte>, code: string)
    requires |bs| == ULONG_SIZE
    requires |code| <= 10 && |code| % 4 != 0 && code == Encode(bs)[..|code|]
    requires forall i :: |code| <= i < |Encode(bs)| ==> Encode(bs)[i] == 'A' || Encode(bs)[i] == PAD
    requires IsPadded(code + "A")
    ensures CodeValue(code + "A") == Ok(LittleEndian(bs[..DecodedLength(|code| + 1)]))
  {
    PrefixThenA(bs, code);
    PrefixValue(bs, code + "A");
  }

  /** `code2id` of a prefix of an encoding that does not leave one symbol over. */
  lemma {:induction false} PrefixValue(bs: seq<byte>, c: string)
    requires |bs| == ULONG_SIZE && |c| <= SymbolCount(ULONG_SIZE) && |c| % 4 != 1
    requires c == Encode(bs)[..|c|] && IsPadded(c)
    ensures CodeValue(c) == Ok(LittleEndian(bs[..DecodedLength(|c|)]))
  {
    var p, k := Padding(c), DecodedLength(|c|);
    DecodePrefix(bs, |c|, p);
    CodeValueOfDecoded(c, bs[..k]);
  }

  /** The bytes past those `n + 1` symbols complete hold no value when the
      encoding has only `A` and `=` from symbol `n` on. */
  lemma {:induction false} ZeroTailKeepsValue(bs: seq<byte>, n: nat)
    requires DecodedLength(n + 1) <= |bs|
    requires forall i :: n <= i < |Encode(bs)| ==> Encode(bs)[i] == 'A' || Encode(bs)[i] == PAD
    ensures LittleEndian(bs[..DecodedLength(n + 1)]) == LittleEndian(bs)
  {
    ZeroTailAt(bs, n);
    ZeroBytesKeepValue(bs, DecodedLength(n + 1));
  }

  /** A code with a zero symbol `A` after it, still inside the encoding's symbols. */
  lemma {:induction false} PrefixThenA(bs: seq<byte>, code: string)
    requires |bs| == ULONG_SIZE && |code| <= 10 && code == Encode(bs)[..|code|]
    requires forall i :: |code| <= i < |Encode(bs)| ==> Encode(bs)[i] == 'A' || Encode(bs)[i] == PAD
    ensures var c := code + "A"; |c| <= SymbolCount(ULONG_SIZE) && c == Encode(bs)[..|c|]
  {
    var s, n := Encode(bs), |code|;
    EncodeShape(bs);
    assert s[n] == s[..SymbolCount(8)][n];
    assert code + "A" == s[..n + 1];
  }

  /** `code2id` of a code whose padded decoding is at most eight bytes. */
  lemma {:induction false} CodeValueOfDecoded(code: string, decoded: seq<byte>)
    requires IsPadded(code) && Decode(code + Padding(code)) == Ok(decoded)
    requires |decoded| <= ULONG_SIZE
    ensures CodeValue(code) == Ok(LittleEndian(decoded))
  {
  }

  /** Zero bytes from `k` on do not change the value. */
  lemma {:induction false} ZeroBytesKeepValue(bs: seq<byte>, k: nat)
    requires k <= |bs| && forall j :: k <= j < |bs| ==> bs[j] == 0
    ensures LittleEndian(bs[..k]) == LittleEndian(bs)
  {
    assert bs == bs[..k] + bs[k..];
    LittleEndianZeroExtend(bs[..k], bs[k..]);
  }

  /** `ExtraSymbol` for an eleven-symbol code: with the `A` it is the
      encoding of the id's bytes followed by a zero byte. */
  lemma {:induction false} ElevenThenA(id: int, bs: seq<byte>, code: string)
    requires |bs| == ULONG_SIZE && LittleEndian(bs) == id
    requires |code| == 11 && code == Encode(bs)[..11]
    requires IsPadded(code + "A")
    ensures CodeValue(code + "A") == Ok(id)
  {
    var ext := bs + [0];
    EncodeExtended(bs);
    DecodeEncode(ext);
    assert Padding(code + "A") == "" && code + "A" + "" == Encode(ext);
    assert ext[..ULONG_SIZE] == bs;
  }

  lemma {:induction false} EncodeExtended(bs: seq<byte>)
    requires |bs| == ULONG_SIZE
    ensures Encode(bs + [0]) == Encode(bs)[..11] + "A"
  {
    var ext := bs + [0];
    var g1, g2 := EncodeGroup(bs[0], bs[1], bs[2]), EncodeGroup(bs[3], bs[4], bs[5]);
    var f := EncodeFinal([bs[6], bs[7]]);
    EncodeEight(bs);
    assert bs[6..] == [bs[6], bs[7]];
    assert Encode(bs)[..11] == g1 + g2 + f[..3];
    EncodeNine(ext);
    FinalThenA(bs[6], bs[7]);
  }

  lemma {:induction false} ExtraA(code: string)
    requires AllSymbols(code)
    ensures IsPadded(code + "A") && (CodeValue(code + "A").Err? <==> |code| % 4 == 0)
  {
    var c := code + "A";
    SymbolsThenA(code);
    CodeValueOutcome(c);
    assert |c| == |code| + 1;
  }

  lemma {:induction false} CodeIsSymbols(id: int)
    requires 0 <= id < ULONG_LIMIT
    ensures AllSymbols(Id2Code(id).value)
  {
    Id2CodeShape(id);
  }

  lemma {:induction false} SymbolsThenA(code: string)
    requires AllSymbols(code)
    ensures AllSymbols(code + "A")
  {
    assert forall i :: 0 <= i < |code| ==> (code + "A")[i] == code[i];
    assert (code + "A")[|code|] == 'A';
  }

  /** Nine bytes encode as three whole groups. */
  lemma {:induction false} EncodeNine(bs: seq<byte>)
    requires |bs| == 9
    ensures Encode(bs) == EncodeGroup(bs[0], bs[1], bs[2]) + EncodeGroup(bs[3], bs[4], bs[5])
                          + EncodeGroup(bs[6], bs[7], bs[8])
  {
    EncodeSplit(bs);
    EncodeSplit(bs[3..]);
    EncodeSplit(bs[6..]);
    assert bs[3..][3..] == bs[6..] && bs[6..][3..] == [];
  }

  // ---------------------------------------------------------------- worked examples

  /** An id's code, read off its encoding: the part before a tail of `A` and `=`
      when that part does not itself end in one. */
  lemma {:induction false} Id2CodeOf(id: int, bs: seq<byte>, code: string, tail: string)
    requires |bs| == ULONG_SIZE && LittleEndian(bs) == id
    requires Encode(bs) == code + tail
    requires forall i :: 0 <= i < |tail| ==> tail[i] in STRIPPED
    requires code == [] || code[|code| - 1] !in STRIPPED
    ensures Id2Code(id) == Ok(code)
  {
    ToBytesLittleEndian(bs);
    RStripTail(code, tail, STRIPPED);
  }

  lemma {:induction false} EncodingOfZero()
    ensures Encode([0, 0, 0, 0, 0, 0, 0, 0]) == "" + "AAAAAAAAAAA="
  {
    EncodeEight([0, 0, 0, 0, 0, 0, 0, 0]);
    ExampleGroups();
  }

  lemma {:induction false} ZeroIsEmpty()
    ensures Id2Code(0) == Ok("")
  {
    EncodingOfZero();
    Id2CodeOf(0, [0, 0, 0, 0, 0, 0, 0, 0], "", "AAAAAAAAAAA=");
  }

  /** Zero has the empty code, and the empty code decodes to zero. */
  lemma {:induction false} ZeroCode()
    ensures Id2Code(0) == Ok("")
    ensures IsPadded("") && CodeValue("") == Ok(0)
  {
    ZeroIsEmpty();
    assert "" + Padding("") == "";
  }

  lemma {:induction false} EncodingOf4096()
    ensures Encode([0, 16, 0, 0, 0, 0, 0, 0]) == "AB" + "AAAAAAAAA="
  {
    EncodeEight([0, 16, 0, 0, 0, 0, 0, 0]);
    ExampleGroups();
  }

  lemma {:induction false} Code4096IsAB()
    ensures Id2Code(4096) == Ok("AB")
  {
    EncodingOf4096();
    Id2CodeOf(4096, [0, 16, 0, 0, 0, 0, 0, 0], "AB", "AAAAAAAAA=");
  }

  /** 4096 encodes as `AB`, which decodes to 0: the four bits of `B` that
      belong to the unfinished second byte are dropped. */
  lemma {:induction false} Code4096()
    ensures Id2Code(4096) == Ok("AB")
    ensures IsPadded("AB") && CodeValue("AB") == Ok(0)
  {
    Code4096IsAB();
    CodeValueOfId(4096);
    assert DecodedLength(2) == 1;
  }

  lemma {:induction false} EncodingOf2To26()
    ensures Encode([0, 0, 0, 4, 0, 0, 0, 0]) == "AAAAB" + "AAAAAA="
  {
    EncodeEight([0, 0, 0, 4, 0, 0, 0, 0]);
    ExampleGroups();
  }

  lemma {:induction false} Code2To26IsAAAAB()
    ensures Id2Code(67108864) == Ok("AAAAB")
  {
    EncodingOf2To26();
    Id2CodeOf(67108864, [0, 0, 0, 4, 0, 0, 0, 0], "AAAAB", "AAAAAA=");
  }

  lemma {:induction false} AAAABRejected()
    ensures IsPadded("AAAAB") && CodeValue("AAAAB") == Err(DECODE_ERROR)
  {
    CodeValueOutcome("AAAAB");
  }

  /** 2^26 encodes as `AAAAB`, five symbols, which fails to decode. */
  lemma {:induction false} Code2To26()
    ensures Id2Code(67108864) == Ok("AAAAB")
    ensures IsPadded("AAAAB") && CodeValue("AAAAB") == Err(DECODE_ERROR)
  {
    Code2To26IsAAAAB();
    AAAABRejected();
  }

  /** Zero's code with one `A` added back is refused, although zero's code is
      made of nothing but stripped `A`s. */
  lemma {:induction false} ZeroWithExtraSymbol()
    ensures Id2Code(0) == Ok("")
    ensures IsPadded("A") && CodeValue("A") == Err(DECODE_ERROR)
  {
    ZeroIsEmpty();
    ExtraSymbol(0);
    assert "" + "A" == "A";
  }

  lemma {:induction false} EncodingOfMax()
    ensures Encode([255, 255, 255, 255, 255, 255, 255, 255]) == "//////////8" + "="
  {
    EncodeEight([255, 255, 255, 255, 255, 255, 255, 255]);
    MaxGroups();
  }

  lemma {:induction false} MaxIsEleven()
    ensures Id2Code(ULONG_LIMIT - 1) == Ok("//////////8")
  {
    EncodingOfMax();
    Id2CodeOf(ULONG_LIMIT - 1, [255, 255, 255, 255, 255, 255, 255, 255], "//////////8", "=");
  }

  /** The largest id, 2^64 - 1, has the eleven-symbol code `//////////8`,
      which decodes back to it; the next id is refused. */
  lemma {:induction false} MaxCode()
    ensures Id2Code(ULONG_LIMIT - 1) == Ok("//////////8")
    ensures IsPadded("//////////8") && CodeValue("//////////8") == Ok(ULONG_LIMIT - 1)
    ensures Id2Code(ULONG_LIMIT) == Err(ENCODE_ERROR)
  {
    MaxIsEleven();
    RoundTrip(ULONG_LIMIT - 1);
  }
}
