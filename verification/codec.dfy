/** The persisted form of one cache entry. `JSON.stringify` of
    `{data, timestamp, expiresIn}` with integer fields is the string
    `{"data":<data>,"timestamp":<t>,"expiresIn":<e>}`, where `<data>` is the
    JSON text of the payload. Decoding reads the two numbers from the right
    and then asks whether what is left between the tags is JSON text, so a
    framed payload that `JSON.parse` would reject does not decode. */
module EntryCodec {
  import opened Wrappers
  import opened Decimal
  import opened JsonText
  import JsonData

  /** `CacheItem<T>`: the payload's JSON text, the write time and the
      lifetime, in milliseconds. */
  datatype CacheItem = CacheItem(data: JsonString, timestamp: int, expiresIn: int)

  const DataTag: string := "{\"data\":"
  const TimestampTag: string := ",\"timestamp\":"
  const ExpiresTag: string := ",\"expiresIn\":"
  const CloseTag: string := "}"

  /** The entry layout around any payload text, JSON or not. */
  function Frame(data: string, timestamp: int, expiresIn: int): (s: string)
    ensures |s| == 35 + |data| + |IntToString(timestamp)| + |IntToString(expiresIn)|
  {
    DataTag + data + TimestampTag + IntToString(timestamp)
      + ExpiresTag + IntToString(expiresIn) + CloseTag
  }

  /** `JSON.stringify(cacheItem)`. */
  function Encode(item: CacheItem): (s: string)
    ensures |s| == 35 + |item.data| + |IntToString(item.timestamp)| + |IntToString(item.expiresIn)|
  {
    Frame(item.data, item.timestamp, item.expiresIn)
  }

  /** `s` without the trailing `tag`, when it ends with `tag`. */
  function StripSuffix(s: string, tag: string): (r: Option<string>)
    ensures r.Some? <==> |tag| <= |s| && s[|s| - |tag|..] == tag
    ensures r.Some? ==> r.value + tag == s
  {
    if |tag| <= |s| && s[|s| - |tag|..] == tag then Some(s[..|s| - |tag|]) else None
  }

  /** `s` without the leading `tag`, when it starts with `tag`. */
  function StripPrefix(s: string, tag: string): (r: Option<string>)
    ensures r.Some? <==> |tag| <= |s| && s[..|tag|] == tag
    ensures r.Some? ==> tag + r.value == s
  {
    if |tag| <= |s| && s[..|tag|] == tag then Some(s[|tag|..]) else None
  }

  /** The length of the longest suffix of `s` made of digits and minus signs. */
  function NumberSuffixLength(s: string): (n: nat)
    ensures n <= |s|
    ensures forall i :: |s| - n <= i < |s| ==> IsNumberChar(s[i])
    ensures n < |s| ==> !IsNumberChar(s[|s| - n - 1])
    decreases |s|
  {
    if |s| == 0 || !IsNumberChar(s[|s| - 1]) then 0
    else 1 + NumberSuffixLength(s[..|s| - 1])
  }

  /** Splits a trailing number off `s`: `(rest, digits)` with `rest + digits == s`. */
  function SplitNumber(s: string): (r: (string, string))
    ensures r.0 + r.1 == s
  {
    var k := |s| - NumberSuffixLength(s);
    assert s[..k] + s[k..] == s;
    (s[..k], s[k..])
  }

  /** Reads a trailing `<tag><integer>` off `s`, returning what precedes it. */
  function ReadTaggedInt(s: string, tag: string): (r: Option<(string, int)>)
    ensures r.Some? ==> r.value.0 + tag + IntToString(r.value.1) == s
  {
    var (rest, digits) := SplitNumber(s);
    match ParseInt(digits)
    case None => None
    case Some(v) =>
      match StripSuffix(rest, tag)
      case None => None
      case Some(front) =>
        ParseIntCanonical(digits);
        Some((front, v))
  }

  /** `JSON.parse` of a stored string followed by reading the entry's fields:
      `None` for every string that is not the encoding of an entry, in
      particular for a framed payload that is not JSON text. */
  function Decode(s: string): (r: Option<CacheItem>)
    ensures r.Some? ==> Encode(r.value) == s
  {
    match StripSuffix(s, CloseTag)
    case None => None
    case Some(body) =>
      match ReadTaggedInt(body, ExpiresTag)
      case None => None
      case Some((front, expiresIn)) =>
        match ReadTaggedInt(front, TimestampTag)
        case None => None
        case Some((head, timestamp)) =>
          match StripPrefix(head, DataTag)
          case None => None
          case Some(data) =>
            if IsJsonText(data) then
              assert s == Frame(data, timestamp, expiresIn);
              Some(CacheItem(data, timestamp, expiresIn))
            else None
  }

  /** A trailing integer after a tag ending in ':' is split off exactly. */
  lemma {:induction false} SplitNumberAfterColon(front: string, digits: string)
    requires |front| > 0 && front[|front| - 1] == ':'
    requires forall i :: 0 <= i < |digits| ==> IsNumberChar(digits[i])
    ensures NumberSuffixLength(front + digits) == |digits|
    decreases |digits|
  {
    var s := front + digits;
    if |digits| == 0 {
      assert s == front;
    } else {
      assert s[..|s| - 1] == front + digits[..|digits| - 1];
      SplitNumberAfterColon(front, digits[..|digits| - 1]);
    }
  }

  lemma ReadTaggedIntOfEncoding(head: string, tag: string, v: int)
    requires |tag| > 0 && tag[|tag| - 1] == ':'
    ensures ReadTaggedInt(head + tag + IntToString(v), tag) == Some((head, v))
  {
    var digits := IntToString(v);
    var s := head + tag + digits;
    SplitNumberAfterColon(head + tag, digits);
    assert SplitNumber(s) == (head + tag, digits);
    IntRoundTrip(v);
    assert (head + tag)[|head + tag| - |tag|..] == tag;
  }

  /** A frame decodes exactly when its payload is JSON text, and then to the
      entry it frames. */
  lemma DecodeFrame(data: string, timestamp: int, expiresIn: int)
    ensures Decode(Frame(data, timestamp, expiresIn))
            == if IsJsonText(data) then Some(CacheItem(data, timestamp, expiresIn)) else None
  {
    var head := DataTag + data;
    var front := head + TimestampTag + IntToString(timestamp);
    var body := front + ExpiresTag + IntToString(expiresIn);
    var s := Frame(data, timestamp, expiresIn);
    assert s == body + CloseTag;
    assert StripSuffix(s, CloseTag) == Some(body);
    ReadTaggedIntOfEncoding(front, ExpiresTag, expiresIn);
    ReadTaggedIntOfEncoding(head, TimestampTag, timestamp);
    assert StripPrefix(head, DataTag) == Some(data);
  }

  /** Decoding undoes encoding. */
  lemma DecodeEncode(item: CacheItem)
    ensures Decode(Encode(item)) == Some(item)
  {
    DecodeFrame(item.data, item.timestamp, item.expiresIn);
  }

  /** A string decodes iff it is the encoding of some entry, and then it is
      the encoding of what it decodes to. */
  lemma EncodeDecode(s: string)
    ensures Decode(s).Some? <==> exists item :: Encode(item) == s
    ensures Decode(s).Some? ==> Encode(Decode(s).value) == s
  {
    if item :| Encode(item) == s {
      DecodeEncode(item);
    }
  }

  /** Two distinct entries never share a stored string. */
  lemma EncodeInjective(a: CacheItem, b: CacheItem)
    requires Encode(a) == Encode(b)
    ensures a == b
  {
    DecodeEncode(a);
    DecodeEncode(b);
  }

  /** A framed payload that is not JSON text (here: nothing at all between the
      tags, which `JSON.parse` rejects) does not decode. */
  lemma EmptyPayloadDoesNotDecode()
    ensures Decode("{\"data\":,\"timestamp\":0,\"expiresIn\":9}") == None
  {
    EmptyPayloadFrame();
    assert !IsJsonText("");
    DecodeFrame("", 0, 9);
  }

  lemma EmptyPayloadFrame()
    ensures Frame("", 0, 9) == "{\"data\":,\"timestamp\":0,\"expiresIn\":9}"
  {
    assert IntToString(0) == "0" && IntToString(9) == "9";
  }

  /** A framed JSON array decodes to its entry. */
  lemma ArrayPayloadDecodes()
    ensures Decode("{\"data\":[1],\"timestamp\":5,\"expiresIn\":6}")
            == Some(CacheItem("[1]", 5, 6))
  {
    ArrayPayloadFrame();
    var one := JsonData.JArray([JsonData.JNumber(1)]);
    assert Decimal.IntToString(1) == "1";
    assert Serialize(one) == "[1]";
    SerializeIsJsonText(one);
    DecodeFrame("[1]", 5, 6);
  }

  lemma ArrayPayloadFrame()
    ensures Frame("[1]", 5, 6) == "{\"data\":[1],\"timestamp\":5,\"expiresIn\":6}"
  {
    assert IntToString(5) == "5" && IntToString(6) == "6";
  }
}
