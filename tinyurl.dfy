/** `confluence/tinyurl.py`: the same short codes as `ShortCode`, but decoded
    without putting the stripped `=` back. */
module TinyUrl {
  import opened Common
  import opened Text
  import opened Struct
  import opened Base64
  import ShortCode

  /** Message of the ValueError `url2id` raises. */
  const DECODE_ERROR: string := "Failed to decode shortcode into pageid"

  /** Message of the ValueError `id2url` raises. */
  const ENCODE_ERROR: string := "page_id too large"

  /** `id2url`: pack, encode, strip trailing `A` and `=`. */
  function Id2Url(id: int): (r: Result<string>)
    ensures r.Ok? <==> 0 <= id < ULONG_LIMIT
    ensures r.Err? ==> r.msg == ENCODE_ERROR
  {
    match Pack(id)
    case None => Err(ENCODE_ERROR)
    case Some(packed) => Ok(RStrip(Encode(packed), ShortCode.STRIPPED))
  }

  /** What `url2id` returns for a token of alphabet symbols and `=`. */
  function UrlValue(token: string): (r: Result<nat>)
    requires IsPadded(token)
    ensures r.Ok? ==> r.value < ULONG_LIMIT
    ensures r.Err? <==> Decode(token).Err?
    ensures r.Err? ==> r.msg == DECODE_ERROR
  {
    match Decode(token)
    case Err(_) => Err(DECODE_ERROR)
    case Ok(decoded) => Ok(ReadULong(decoded))
  }

  /** `url2id`: decode as given, zero-extend the decoded bytes to eight, unpack. */
  method Url2Id(token: string) returns (r: Result<nat>)
    requires IsPadded(token)
    ensures r == UrlValue(token)
    ensures r.Ok? ==> r.value < ULONG_LIMIT
    ensures r.Err? ==> r.msg == DECODE_ERROR
  {
    var decoding := Decode(token);
    if decoding.Err? {
      return Err(DECODE_ERROR);
    }
    var decoded := decoding.value;
    decoded := decoded + Times(0, ULONG_SIZE - |decoded|);
    var unpacked := UnpackFrom(decoded);
    ReadULongOf(decoding.value, decoded);
    r := Ok(unpacked.value);
  }

  /** `id2url` is `id2code`, down to the refused ids; only the message differs. */
  lemma {:induction false} Id2UrlIsId2Code(id: int)
    ensures Id2Url(id).Ok? <==> ShortCode.Id2Code(id).Ok?
    ensures Id2Url(id).Ok? ==> Id2Url(id).value == ShortCode.Id2Code(id).value
  {
  }

  /** Without padding repair, a token of symbols decodes exactly when its
      length is a multiple of four. */
  lemma {:induction false} UrlValueOutcome(token: string)
    requires AllSymbols(token)
    ensures IsPadded(token)
    ensures UrlValue(token).Err? <==> |token| % 4 != 0
  {
    SymbolsThenPad(token, "");
    assert token + "" == token;
    DecodeOutcome(token, "");
  }

  /** The empty token decodes to zero. */
  lemma {:induction false} EmptyToken()
    ensures IsPadded("") && UrlValue("") == Ok(0)
  {
  }

  /** On a token whose length is a multiple of four `code2id` adds no
      padding, so the two decoders agree up to their messages. */
  lemma {:induction false} UrlValueIsCodeValue(token: string)
    requires IsPadded(token) && |token| % 4 == 0
    ensures UrlValue(token).Ok? <==> ShortCode.CodeValue(token).Ok?
    ensures UrlValue(token).Ok? ==> UrlValue(token).value == ShortCode.CodeValue(token).value
  {
    assert token + ShortCode.Padding(token) == token;
  }

  lemma {:induction false} TokenOfId(id: int)
    requires 0 <= id < ULONG_LIMIT
    ensures var token := Id2Url(id).value;
      && token == ShortCode.Id2Code(id).value && |token| <= 11 && AllSymbols(token)
  {
    Id2UrlIsId2Code(id);
    ShortCode.Id2CodeShape(id);
  }

  lemma {:induction false} WholeQuantaUpTo11(n: nat)
    requires n <= 11
    ensures n in {0, 4, 8} <==> n % 4 == 0
  {
  }

  /** `url2id(id2url(n))` gives `n` back exactly when the token is 0, 4 or 8
      symbols long; any other length is refused. */
  lemma {:induction false} RoundTripExactly(id: int)
    requires 0 <= id < ULONG_LIMIT
    ensures var token := Id2Url(id).value;
      && IsPadded(token)
      && (UrlValue(token) == Ok(id) <==> |token| in {0, 4, 8})
      && (|token| !in {0, 4, 8} ==> UrlValue(token) == Err(DECODE_ERROR))
  {
    var token := Id2Url(id).value;
    TokenOfId(id);
    WholeQuantaUpTo11(|token|);
    UrlValueOutcome(token);
    if |token| % 4 == 0 {
      ShortCode.RoundTrip(id);
      UrlValueIsCodeValue(token);
    }
  }

  lemma {:induction false} EncodingOfOne()
    ensures Encode([1, 0, 0, 0, 0, 0, 0, 0]) == "AQ" + "AAAAAAAAA="
  {
    EncodeEight([1, 0, 0, 0, 0, 0, 0, 0]);
    ExampleGroups();
  }

  lemma {:induction false} UrlOfOneIsAQ()
    ensures Id2Url(1) == Ok("AQ")
  {
    EncodingOfOne();
    ShortCode.Id2CodeOf(1, [1, 0, 0, 0, 0, 0, 0, 0], "AQ", "AAAAAAAAA=");
    Id2UrlIsId2Code(1);
  }

  lemma {:induction false} AQRejected()
    ensures IsPadded("AQ") && UrlValue("AQ") == Err(DECODE_ERROR)
  {
    UrlValueOutcome("AQ");
  }

  /** 1 encodes as `AQ`, which `url2id` refuses. */
  lemma {:induction false} UrlOfOne()
    ensures Id2Url(1) == Ok("AQ")
    ensures IsPadded("AQ") && UrlValue("AQ") == Err(DECODE_ERROR)
  {
    UrlOfOneIsAQ();
    AQRejected();
  }
}
