/** Length-delimited messages: base-128 varints (Protocol Buffers Encoding, "Base 128 Varints") and the loop that takes
    a byte string apart into messages. */
module Framing {
  import opened Options

  type Byte = b: int | 0 <= b < 256

  const UINT32_LIMIT: nat := 0x1_0000_0000

  // ---- Varints ------------------------------------------------------------------------------------------------

  /** Seven bits to a byte, low ones first; all but the last byte have their high bit set. */
  function Encode(value: nat): (bytes: seq<Byte>)
    ensures |bytes| > 0
  {
    if value > 0x7F then [value % 128 + 128] + Encode(value / 128) else [value]
  }

  method EncodeVarint(value: nat) returns (encoded: seq<Byte>)
    ensures encoded == Encode(value)
  {
    hide Encode;
    encoded := [];
    var left := value;
    EncodeStep(encoded, left);
    while left > 0x7F
      invariant encoded + Encode(left) == Encode(value)
    {
      EncodeStep(encoded, left);
      encoded := encoded + [left % 128 + 128];
      left := left / 128;
    }
    EncodeStep(encoded, left);
    encoded := encoded + [left];
  }

  lemma EncodeStep(encoded: seq<Byte>, value: nat)
    ensures [] + Encode(value) == Encode(value)
    ensures value > 0x7F ==>
              encoded + Encode(value) == encoded + [value % 128 + 128] + Encode(value / 128)
    ensures value <= 0x7F ==> encoded + Encode(value) == encoded + [value]
  {}

  datatype Decoding = Decoded(value: nat, offset: nat) | Truncated | ExceedsUint32 | TooLong

  const MAX_GROUPS: nat := 5

  /** Up to `groups` more bytes from `offset` on, each worth 128 times the one before. */
  function DecodeFrom(data: seq<Byte>, offset: nat, groups: nat, value: nat, weight: nat): Decoding
    decreases groups
  {
    if groups == 0 then TooLong
    else if offset >= |data| then Truncated
    else
      var byte := data[offset];
      var value' := value + byte % 128 * weight;
      if byte >= 0x80 then DecodeFrom(data, offset + 1, groups - 1, value', weight * 128)
      else if value' >= UINT32_LIMIT then ExceedsUint32
      else Decoded(value', offset + 1)
  }

  function Decode(data: seq<Byte>, offset: nat): Decoding { DecodeFrom(data, offset, MAX_GROUPS, 0, 1) }

  /** The bits of a new group lie above those of `value`, so adding them is what the bitwise or does. */
  method DecodeVarint32(data: seq<Byte>, start: nat) returns (result: Decoding)
    ensures result == Decode(data, start)
  {
    hide DecodeFrom;
    var value, offset, weight := 0, start, 1;
    for group := 0 to MAX_GROUPS
      invariant value >= 0 && weight >= 0 && offset >= 0
      invariant DecodeFrom(data, offset, MAX_GROUPS - group, value, weight) == Decode(data, start)
    {
      DecodeStep(data, offset, MAX_GROUPS - group, value, weight);
      if offset >= |data| {
        return Truncated;
      }
      var byte := data[offset];
      offset := offset + 1;
      value := value + byte % 128 * weight;
      if byte < 0x80 {
        return if value >= UINT32_LIMIT then ExceedsUint32 else Decoded(value, offset);
      }
      weight := weight * 128;
    }
    DecodeNone(data, offset, value, weight);
    return TooLong;
  }

  lemma DecodeStep(data: seq<Byte>, offset: nat, groups: nat, value: nat, weight: nat)
    requires groups > 0
    ensures offset >= |data| ==> DecodeFrom(data, offset, groups, value, weight) == Truncated
    ensures offset < |data| ==>
              var value' := value + data[offset] % 128 * weight;
              && value' >= 0
              && DecodeFrom(data, offset, groups, value, weight)
                 == (if data[offset] >= 0x80 then DecodeFrom(data, offset + 1, groups - 1, value', weight * 128)
                     else if value' >= UINT32_LIMIT then ExceedsUint32
                     else Decoded(value', offset + 1))
  {}

  lemma DecodeNone(data: seq<Byte>, offset: nat, value: nat, weight: nat)
    ensures DecodeFrom(data, offset, 0, value, weight) == TooLong
  {}

  function Pow128(n: nat): nat { if n == 0 then 1 else 128 * Pow128(n - 1) }

  lemma Regroup(value: nat, weight: nat)
    ensures value % 128 * weight + value / 128 * (weight * 128) == value * weight
  {
    var low, high := value % 128, value / 128;
    assert value == low + 128 * high;
    assert high * (weight * 128) == (128 * high) * weight;
    assert value * weight == low * weight + (128 * high) * weight;
  }

  lemma SplitBound(value: nat, groups: nat)
    requires groups > 0
    ensures value < Pow128(groups) <==> value / 128 < Pow128(groups - 1)
  {
    assert Pow128(groups) == 128 * Pow128(groups - 1);
  }

  /** At any offset and whatever follows, the groups that are left read an encoded value back, unless there are too few
      of them, or the sum goes past the limit. */
  lemma {:induction false} DecodeEncoded(data: seq<Byte>, offset: nat, groups: nat, value: nat, weight: nat, v: nat)
    requires groups > 0 && offset + |Encode(v)| <= |data| && data[offset..offset + |Encode(v)|] == Encode(v)
    ensures DecodeFrom(data, offset, groups, value, weight)
         == if v >= Pow128(groups) then TooLong
            else if value + v * weight >= UINT32_LIMIT then ExceedsUint32
            else Decoded(value + v * weight, offset + |Encode(v)|)
    decreases groups
  {
    hide DecodeFrom, Pow128;
    var encoded := data[offset..offset + |Encode(v)|];
    assert data[offset] == encoded[0];
    DecodeStep(data, offset, groups, value, weight);
    if v <= 0x7F {
      assert v % 128 == v;
      Pow128Positive(groups);
    } else {
      Regroup(v, weight);
      assert encoded[0] == v % 128 + 128;
      ContinuationBits(v);
      SplitBound(v, groups);
      var next := value + v % 128 * weight;
      if groups == 1 {
        DecodeNone(data, offset + 1, next, weight * 128);
        Pow128One();
      } else {
        assert data[offset + 1..offset + 1 + |Encode(v / 128)|] == encoded[1..];
        DecodeEncoded(data, offset + 1, groups - 1, next, weight * 128, v / 128);
      }
    }
  }

  lemma ContinuationBits(v: nat)
    ensures (v % 128 + 128) % 128 == v % 128
  {}

  lemma Pow128One()
    ensures Pow128(0) == 1 && Pow128(1) == 128
  {}

  lemma {:induction false} Pow128Positive(n: nat)
    ensures Pow128(n) > 0 && (n > 0 ==> Pow128(n) >= 128)
  {
    if n > 0 {
      Pow128Positive(n - 1);
    }
  }

  lemma FiveGroups()
    ensures Pow128(MAX_GROUPS) == 34359738368
  {
    assert Pow128(1) == 128 && Pow128(2) == 16384 && Pow128(3) == 2097152 && Pow128(4) == 268435456;
  }

  /** Decoding inverts encoding at any offset for every value below 2^32, and rejects every other: as exceeding 32 bits
      when it still fits five groups, otherwise as too long. */
  lemma VarintRoundTrip(before: seq<Byte>, value: nat, after: seq<Byte>)
    ensures Decode(before + Encode(value) + after, |before|)
         == if value < UINT32_LIMIT then Decoded(value, |before| + |Encode(value)|)
            else if value < 34359738368 then ExceedsUint32
            else TooLong
  {
    var data := before + Encode(value) + after;
    assert data[|before|..|before| + |Encode(value)|] == Encode(value);
    DecodeEncoded(data, |before|, MAX_GROUPS, 0, 1, value);
    FiveGroups();
  }

  // ---- Encodings that are longer than needed ------------------------------------------------------------------

  /** Every byte but the last announces another one. */
  predicate IsGroups(bytes: seq<Byte>) {
    bytes != [] && bytes[|bytes| - 1] < 0x80 && forall i | 0 <= i < |bytes| - 1 :: bytes[i] >= 0x80
  }

  function Value(bytes: seq<Byte>): nat {
    if bytes == [] then 0 else bytes[0] % 128 + 128 * Value(bytes[1..])
  }

  lemma ShiftGroups(first: nat, rest: nat, weight: nat)
    ensures first * weight + rest * (weight * 128) == (first + 128 * rest) * weight
  {
    assert rest * (weight * 128) == (128 * rest) * weight;
  }

  lemma {:induction false} DecodedGroups(data: seq<Byte>, offset: nat, groups: nat, value: nat, weight: nat)
    ensures var d := DecodeFrom(data, offset, groups, value, weight);
            d.Decoded? ==>
              && offset < d.offset <= |data| && IsGroups(data[offset..d.offset])
              && d.value == value + Value(data[offset..d.offset]) * weight && d.value < UINT32_LIMIT
    decreases groups
  {
    hide DecodeFrom;
    if groups == 0 {
      DecodeNone(data, offset, value, weight);
    } else {
      DecodeStep(data, offset, groups, value, weight);
      if offset < |data| {
        var next := value + data[offset] % 128 * weight;
        if data[offset] >= 0x80 {
          DecodedGroups(data, offset + 1, groups - 1, next, weight * 128);
          var d := DecodeFrom(data, offset, groups, value, weight);
          if d.Decoded? {
            MoreGroups(data, offset, d.offset);
            ShiftGroups(data[offset] % 128, Value(data[offset + 1..d.offset]), weight);
          }
        } else {
          assert data[offset..offset + 1] == [data[offset]] && Value([data[offset]]) == data[offset] % 128;
        }
      }
    }
  }

  lemma MoreGroups(data: seq<Byte>, offset: nat, end: nat)
    requires offset + 1 < end <= |data| && data[offset] >= 0x80 && IsGroups(data[offset + 1..end])
    ensures IsGroups(data[offset..end])
    ensures Value(data[offset..end]) == data[offset] % 128 + 128 * Value(data[offset + 1..end])
  {
    var bytes := data[offset..end];
    assert bytes[1..] == data[offset + 1..end];
    forall i | 0 <= i < |bytes| - 1 ensures bytes[i] >= 0x80 {
      if i > 0 {
        assert bytes[i] == bytes[1..][i - 1];
      }
    }
  }

  lemma ValueParts(first: Byte, rest: nat)
    ensures (first % 128 + 128 * rest) % 128 == first % 128 && (first % 128 + 128 * rest) / 128 == rest
    ensures first >= 0x80 ==> first == first % 128 + 128
  {}

  /** Groups are the encoding of their value unless the last of several is zero. */
  lemma {:induction false} ShortestGroups(bytes: seq<Byte>)
    requires IsGroups(bytes)
    ensures bytes == Encode(Value(bytes)) <==> |bytes| == 1 || bytes[|bytes| - 1] != 0
    ensures |bytes| > 1 && bytes[|bytes| - 1] != 0 ==> Value(bytes) > 0x7F
    ensures |bytes| == 1 ==> Value(bytes) == bytes[0]
    ensures bytes[|bytes| - 1] != 0 ==> Value(bytes) > 0
    decreases |bytes|
  {
    hide Encode, Value;
    var first, rest := bytes[0], bytes[1..];
    ValueStep(bytes);
    if |bytes| > 1 {
      TailGroups(bytes);
      ShortestGroups(rest);
      EncodeGroups(first, Value(rest));
      assert bytes == [first] + rest;
    } else {
      EncodeStep([], first);
      assert bytes == [first];
    }
  }

  lemma ValueStep(bytes: seq<Byte>)
    requires bytes != []
    ensures Value(bytes) == bytes[0] % 128 + 128 * Value(bytes[1..])
    ensures |bytes| == 1 && bytes[0] < 0x80 ==> Value(bytes) == bytes[0]
  {}

  lemma TailGroups(bytes: seq<Byte>)
    requires IsGroups(bytes) && |bytes| > 1
    ensures IsGroups(bytes[1..]) && bytes[0] >= 0x80 && bytes[1..][|bytes| - 2] == bytes[|bytes| - 1]
  {}

  /** The encoding of a first group and what follows, unless nothing but zeros does. */
  lemma EncodeGroups(first: Byte, rest: nat)
    requires first >= 0x80
    ensures var value := first % 128 + 128 * rest;
            Encode(value) == if rest > 0 then [first] + Encode(rest) else [first - 128]
  {
    ValueParts(first, rest);
  }

  /** What is decoded was encoded like that, unless it ends with a superfluous zero group, which is accepted too. */
  lemma DecodedIsEncoded(data: seq<Byte>, offset: nat)
    requires Decode(data, offset).Decoded?
    ensures var d := Decode(data, offset);
            && offset < d.offset <= |data| && d.value < UINT32_LIMIT
            && (data[offset..d.offset] == Encode(d.value) <==> d.offset == offset + 1 || data[d.offset - 1] != 0)
  {
    DecodedGroups(data, offset, MAX_GROUPS, 0, 1);
    ShortestGroups(data[offset..Decode(data, offset).offset]);
  }

  lemma SuperfluousZero()
    ensures Decode([0x80, 0], 0) == Decoded(0, 2) && Decode([0], 0) == Decoded(0, 1)
  {
    assert DecodeFrom([0x80, 0], 1, 4, 0, 128) == Decoded(0, 2);
  }

  // ---- Messages -----------------------------------------------------------------------------------------------

  type Payload = seq<Byte>

  datatype FramingError = BadLength | TruncatedMessage | InvalidMessage

  /** The messages that are yielded, and the error that ends the iteration, if one does. */
  datatype Messages = Messages(payloads: seq<Payload>, error: Option<FramingError>)

  function Prepend(payload: Payload, rest: Messages): Messages { rest.(payloads := [payload] + rest.payloads) }

  /** `parses` is whether bytes are a message. */
  function Unframe(data: seq<Byte>, offset: nat, parses: Payload -> bool): Messages
    decreases |data| - offset
  {
    if offset >= |data| then Messages([], None)
    else
      var d := Decode(data, offset);
      if !d.Decoded? then Messages([], Some(BadLength))
      else if d.offset + d.value > |data| then Messages([], Some(TruncatedMessage))
      else
        var payload := data[d.offset..d.offset + d.value];
        if !parses(payload) then Messages([], Some(InvalidMessage))
        else
          DecodedGroups(data, offset, MAX_GROUPS, 0, 1);
          Prepend(payload, Unframe(data, d.offset + d.value, parses))
  }

  method IterTraceWrappers(data: seq<Byte>, parses: Payload -> bool) returns (messages: Messages)
    ensures messages == Unframe(data, 0, parses)
  {
    hide Unframe;
    var payloads: seq<Payload>, offset := [], 0;
    while offset < |data|
      invariant offset >= 0
      invariant Unframe(data, 0, parses)
             == (var rest := Unframe(data, offset, parses); rest.(payloads := payloads + rest.payloads))
      decreases |data| - offset
    {
      UnframeStep(data, offset, parses);
      var decoded := DecodeVarint32(data, offset);
      if !decoded.Decoded? {
        return Messages(payloads, Some(BadLength));
      }
      var end := decoded.offset + decoded.value;
      if end > |data| {
        return Messages(payloads, Some(TruncatedMessage));
      }
      var payload := data[decoded.offset..end];
      if !parses(payload) {
        return Messages(payloads, Some(InvalidMessage));
      }
      payloads := payloads + [payload];
      offset := end;
    }
    UnframeEnd(data, offset, parses);
    messages := Messages(payloads, None);
  }

  lemma UnframeStep(data: seq<Byte>, offset: nat, parses: Payload -> bool)
    requires offset < |data|
    ensures var d := Decode(data, offset);
            Unframe(data, offset, parses)
            == (if !d.Decoded? then Messages([], Some(BadLength))
                else if d.offset + d.value > |data| then Messages([], Some(TruncatedMessage))
                else if !parses(data[d.offset..d.offset + d.value]) then Messages([], Some(InvalidMessage))
                else Prepend(data[d.offset..d.offset + d.value], Unframe(data, d.offset + d.value, parses)))
    ensures Decode(data, offset).Decoded? ==> offset < Decode(data, offset).offset
  {
    DecodedGroups(data, offset, MAX_GROUPS, 0, 1);
  }

  lemma UnframeEnd(data: seq<Byte>, offset: nat, parses: Payload -> bool)
    requires offset >= |data|
    ensures Unframe(data, offset, parses) == Messages([], None)
  {}

  function Frame(payload: Payload): seq<Byte> { Encode(|payload|) + payload }

  function Frames(payloads: seq<Payload>): seq<Byte> {
    if payloads == [] then [] else Frame(payloads[0]) + Frames(payloads[1..])
  }

  ghost predicate AreMessages(payloads: seq<Payload>, parses: Payload -> bool) {
    forall p | p in payloads :: |p| < UINT32_LIMIT && parses(p)
  }

  /** How many payloads are complete in the first `cut` bytes. */
  function Whole(payloads: seq<Payload>, cut: nat): (n: nat)
    ensures n <= |payloads|
  {
    if payloads == [] || cut < |Frame(payloads[0])| then 0
    else 1 + Whole(payloads[1..], cut - |Frame(payloads[0])|)
  }

  /** A length prefix that is cut short cannot be decoded. */
  lemma {:induction false} CutPrefix(data: seq<Byte>, offset: nat, groups: nat, value: nat, weight: nat, v: nat)
    requires |Encode(v)| <= groups && offset <= |data| < offset + |Encode(v)|
    requires data[offset..] == Encode(v)[..|data| - offset]
    ensures DecodeFrom(data, offset, groups, value, weight) == Truncated
    decreases groups
  {
    hide DecodeFrom;
    DecodeStep(data, offset, groups, value, weight);
    if offset < |data| {
      assert data[offset] == data[offset..][0] == Encode(v)[0];
      assert v > 0x7F;
      assert data[offset + 1..] == data[offset..][1..];
      CutPrefix(data, offset + 1, groups - 1, value + data[offset] % 128 * weight, weight * 128, v / 128);
    }
  }

  lemma {:induction false} EncodedLength(v: nat, groups: nat)
    requires groups > 0 && v < Pow128(groups)
    ensures |Encode(v)| <= groups
    decreases groups
  {
    hide Pow128;
    if v > 0x7F {
      SplitBound(v, groups);
      if groups == 1 {
        Pow128One();
      }
      EncodedLength(v / 128, groups - 1);
    }
  }

  /** What the cut at `cut` yields: the payloads that are complete, and an error unless nothing else was begun. */
  ghost predicate CutWell(payloads: seq<Payload>, cut: nat, messages: Messages) {
    var n := Whole(payloads, cut);
    && messages.payloads == payloads[..n]
    && |Frames(payloads[..n])| <= cut
    && (messages.error.None? <==> cut == |Frames(payloads[..n])|)
  }

  lemma CutWellMore(payloads: seq<Payload>, cut: nat, messages: Messages)
    requires payloads != [] && cut >= |Frame(payloads[0])|
    requires CutWell(payloads[1..], cut - |Frame(payloads[0])|, messages)
    ensures CutWell(payloads, cut, Prepend(payloads[0], messages))
  {
    var rest := payloads[1..];
    var n := Whole(rest, cut - |Frame(payloads[0])|);
    assert payloads[..n + 1] == [payloads[0]] + rest[..n];
    assert payloads[..n + 1][1..] == rest[..n];
  }

  lemma CutWellInside(payloads: seq<Payload>, cut: nat, messages: Messages)
    requires payloads != [] && 0 < cut < |Frame(payloads[0])|
    requires messages.payloads == [] && messages.error.Some?
    ensures CutWell(payloads, cut, messages)
  {
    assert payloads[..0] == [];
  }

  /** Cut anywhere, concatenated messages give exactly those that are complete before the cut, and an error unless the
      cut falls between two messages. */
  lemma {:induction false} CutFrames(payloads: seq<Payload>, before: seq<Byte>, cut: nat, parses: Payload -> bool)
    requires AreMessages(payloads, parses) && cut <= |Frames(payloads)|
    ensures CutWell(payloads, cut, Unframe(before + Frames(payloads)[..cut], |before|, parses))
    decreases |payloads|
  {
    hide Unframe, Encode, Frame, CutWell, Whole, Decode;
    var data := before + Frames(payloads)[..cut];
    if cut == 0 {
      UnframeEnd(data, |before|, parses);
      CutNothing(payloads);
    } else {
      var payload, rest := payloads[0], payloads[1..];
      assert payload in payloads && forall p | p in rest :: p in payloads;
      UnframeStep(data, |before|, parses);
      if cut < |Frame(payload)| {
        CutInFrame(payload, Frames(rest), before, cut);
        CutWellInside(payloads, cut, Unframe(data, |before|, parses));
      } else {
        WholeFrame(payload, Frames(rest), before, cut);
        CutFrames(rest, before + Frame(payload), cut - |Frame(payload)|, parses);
        CutAfter(Frame(payload), Frames(rest), before, cut);
        CutWellMore(payloads, cut, Unframe(data, |before + Frame(payload)|, parses));
      }
    }
  }

  lemma CutAfter(frame: seq<Byte>, rest: seq<Byte>, before: seq<Byte>, cut: nat)
    requires |frame| <= cut <= |frame + rest|
    ensures before + (frame + rest)[..cut] == before + frame + rest[..cut - |frame|]
  {
    assert (frame + rest)[..cut] == frame + rest[..cut - |frame|];
  }

  lemma CutNothing(payloads: seq<Payload>)
    ensures Whole(payloads, 0) == 0 && Frames(payloads[..0]) == []
    ensures CutWell(payloads, 0, Messages([], None))
  {
    if payloads != [] {
      assert |Frame(payloads[0])| > 0;
    }
  }

  lemma WholeFrame(payload: Payload, rest: seq<Byte>, before: seq<Byte>, cut: nat)
    requires |payload| < UINT32_LIMIT && |Frame(payload)| <= cut <= |Frame(payload) + rest|
    ensures var data := before + (Frame(payload) + rest)[..cut];
            var d := Decode(data, |before|);
            && d == Decoded(|payload|, |before| + |Encode(|payload|)|)
            && d.offset + d.value == |before + Frame(payload)| <= |data|
            && data[d.offset..d.offset + d.value] == payload
  {
    hide Encode, DecodeFrom;
    var data := before + (Frame(payload) + rest)[..cut];
    var prefix := Encode(|payload|);
    var after := payload + rest[..cut - |Frame(payload)|];
    assert (Frame(payload) + rest)[..cut] == prefix + after;
    assert data == before + prefix + after;
    VarintRoundTrip(before, |payload|, after);
  }

  lemma CutInFrame(payload: Payload, rest: seq<Byte>, before: seq<Byte>, cut: nat)
    requires |payload| < UINT32_LIMIT && 0 < cut < |Frame(payload)|
    ensures var d := Decode(before + (Frame(payload) + rest)[..cut], |before|);
            !d.Decoded? || d.offset + d.value > |before| + cut
  {
    hide Encode, DecodeFrom;
    var prefix := Encode(|payload|);
    var data := before + (Frame(payload) + rest)[..cut];
    if cut < |prefix| {
      assert data[|before|..] == prefix[..cut];
      FiveGroups();
      EncodedLength(|payload|, MAX_GROUPS);
      CutPrefix(data, |before|, MAX_GROUPS, 0, 1, |payload|);
    } else {
      var after := payload[..cut - |prefix|];
      assert (Frame(payload) + rest)[..cut] == prefix + after;
      assert data == before + prefix + after;
      VarintRoundTrip(before, |payload|, after);
    }
  }

  /** The messages of a concatenation of framed payloads are exactly these payloads. */
  lemma FramesRoundTrip(payloads: seq<Payload>, parses: Payload -> bool)
    requires AreMessages(payloads, parses)
    ensures Unframe(Frames(payloads), 0, parses) == Messages(payloads, None)
  {
    hide Unframe;
    var all := Frames(payloads);
    assert [] + all[..|all|] == all;
    CutFrames(payloads, [], |all|, parses);
    WholeAll(payloads);
    assert payloads[..|payloads|] == payloads;
  }

  lemma {:induction false} WholeAll(payloads: seq<Payload>)
    ensures Whole(payloads, |Frames(payloads)|) == |payloads|
  {
    if payloads != [] {
      WholeAll(payloads[1..]);
    }
  }
}
