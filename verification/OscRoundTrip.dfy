/** What the OSC codec guarantees: which messages survive encoding and decoding,
    and what becomes of a bundle that is cut off. */
module OscRoundTrip {
  import opened Common
  import opened OscProtocol

  predicate NulFree(text: Bytes) {
    0 !in text
  }

  /** All strings of the message are free of NUL bytes. */
  predicate Clean(m: Message) {
    NulFree(m.address) && CleanArguments(m.arguments)
  }

  predicate CleanArguments(arguments: seq<Argument>) {
    forall a :: a in arguments && a.Text? ==> NulFree(a.text)
  }

  lemma PackThenUnpack(v: int)
    requires IsInt32(v)
    ensures UnpackInt(PackInt(v)) == v
  {
    var u := if v < 0 then v + 0x1_0000_0000 else v;
    FourDigits(u);
  }

  /** The digits of a number to the base 256. */
  lemma FourDigits(u: nat)
    ensures u == u / 0x100_0000 * 0x100_0000 + u / 0x1_0000 % 0x100 * 0x1_0000 + u / 0x100 % 0x100 * 0x100 + u % 0x100
  {
    TwoDigits(u);
    TwoDigits(u / 0x100);
    TwoDigits(u / 0x1_0000);
    Shifted(u);
  }

  lemma TwoDigits(u: nat)
    ensures u == u / 0x100 * 0x100 + u % 0x100
  {
  }

  lemma Shifted(u: nat)
    ensures u / 0x100 / 0x100 == u / 0x1_0000 && u / 0x1_0000 / 0x100 == u / 0x100_0000
  {
  }

  /** What padding promises, without saying how it is done. */
  ghost predicate IsPadded(piece: Bytes, text: Bytes) {
    |piece| % 4 == 0 && |text| < |piece| <= |text| + 4 && piece[..|text|] == text && piece[|text|] == 0
  }

  lemma PaddingPads(text: Bytes)
    ensures IsPadded(PaddedString(text), text)
  {
    var piece := PaddedString(text);
    assert text + [0] == piece[..|text| + 1];
    assert piece[..|text|] == (text + [0])[..|text|] == text;
  }

  lemma ReadsString(data: Bytes, offset: nat, piece: Bytes, text: Bytes)
    requires IsPadded(piece, text) && NulFree(text) && offset % 4 == 0
    requires offset + |piece| <= |data| && data[offset..offset + |piece|] == piece
    ensures ReadPaddedString(data, offset) == Ok((text, offset + |piece|))
  {
    var end := offset + |text|;
    assert data[end] == piece[|text|];
    forall i | offset <= i < end
      ensures data[i] != 0
    {
      assert data[i] == piece[i - offset] == piece[..|text|][i - offset] == text[i - offset];
    }
    assert FindZero(data, offset) == Some(end);
    assert data[offset..end] == piece[..|text|];
  }

  /** One argument is read from its bytes, and the rest from behind them. */
  lemma ReadsArgument(data: Bytes, argument: Argument, tags: Bytes, offset: nat)
    requires Tag(argument).Ok? && (argument.Text? ==> NulFree(argument.text))
    requires offset % 4 == 0 && offset + |ArgumentBytes(argument)| <= |data|
    requires data[offset..offset + |ArgumentBytes(argument)|] == ArgumentBytes(argument)
    requires tags != [] && tags[0] == Tag(argument).value
    ensures ReadArguments(data, tags, offset)
            == Cons(argument, ReadArguments(data, tags[1..], offset + |ArgumentBytes(argument)|))
  {
    match argument {
      case Int(v) => PackThenUnpack(v);
      case Text(text) =>
        PaddingPads(text);
        ReadsString(data, offset, PaddedString(text), text);
      case Float(word) => assert WordAt(data, offset) == word;
      case Bool(_) =>
    }
  }

  /** Where a concatenation starts in the data, its second part follows the first. */
  lemma SplitAt(data: Bytes, offset: nat, first: Bytes, rest: Bytes)
    requires offset <= |data| && data[offset..] == first + rest
    ensures offset + |first| <= |data|
    ensures data[offset..offset + |first|] == first
    ensures data[offset + |first|..] == rest
  {
    var all := data[offset..];
    assert all[..|first|] == first && all[|first|..] == rest;
  }

  lemma TailIsClean(arguments: seq<Argument>)
    requires arguments != [] && Encodable(arguments) && CleanArguments(arguments)
    ensures Encodable(arguments[1..]) && CleanArguments(arguments[1..])
    ensures Tags(arguments) == [Tag(arguments[0]).value] + Tags(arguments[1..])
    ensures Payload(arguments) == ArgumentBytes(arguments[0]) + Payload(arguments[1..])
    ensures arguments == [arguments[0]] + arguments[1..]
  {
  }

  lemma {:induction false} ReadsArguments(data: Bytes, arguments: seq<Argument>, offset: nat)
    requires Encodable(arguments) && CleanArguments(arguments)
    requires offset % 4 == 0 && offset <= |data| && data[offset..] == Payload(arguments)
    ensures ReadArguments(data, Tags(arguments), offset) == Ok(arguments)
    decreases |arguments|
  {
    if arguments != [] {
      TailIsClean(arguments);
      ReadsFirstArgument(data, arguments[0], arguments[1..], offset);
      ReadsArguments(data, arguments[1..], offset + |ArgumentBytes(arguments[0])|);
    }
  }

  lemma ReadsFirstArgument(data: Bytes, first: Argument, rest: seq<Argument>, offset: nat)
    requires Tag(first).Ok? && (first.Text? ==> NulFree(first.text)) && Encodable(rest)
    requires offset % 4 == 0 && offset <= |data| && data[offset..] == ArgumentBytes(first) + Payload(rest)
    ensures var next := offset + |ArgumentBytes(first)|;
            && next % 4 == 0 && next <= |data| && data[next..] == Payload(rest)
            && ReadArguments(data, [Tag(first).value] + Tags(rest), offset)
               == Cons(first, ReadArguments(data, Tags(rest), next))
  {
    SplitAt(data, offset, ArgumentBytes(first), Payload(rest));
    AlignedSum(offset, |ArgumentBytes(first)|);
    var tags := [Tag(first).value] + Tags(rest);
    ReadsArgument(data, first, tags, offset);
    assert tags[1..] == Tags(rest);
  }

  /** A message is read from an address string, a tag string and argument data. */
  lemma ReadsParts(data: Bytes, m: Message, tags: Bytes, tagsAt: nat, argumentsAt: nat)
    requires tagsAt < |data| && tags != [] && tags[0] == COMMA
    requires ReadPaddedString(data, 0) == Ok((m.address, tagsAt))
    requires ReadPaddedString(data, tagsAt) == Ok((tags, argumentsAt))
    requires ReadArguments(data, tags[1..], argumentsAt) == Ok(m.arguments)
    ensures ReadMessage(data) == Ok(m)
  {
  }

  lemma ReadsPaddedString(data: Bytes, offset: nat, text: Bytes, rest: Bytes)
    requires NulFree(text) && offset % 4 == 0 && offset <= |data| && data[offset..] == PaddedString(text) + rest
    ensures var next := offset + |PaddedString(text)|;
            && ReadPaddedString(data, offset) == Ok((text, next))
            && offset < next <= |data| && next % 4 == 0 && data[next..] == rest
  {
    SplitAt(data, offset, PaddedString(text), rest);
    PaddingPads(text);
    ReadsString(data, offset, PaddedString(text), text);
    AlignedSum(offset, |PaddedString(text)|);
  }

  lemma PacketSplits(m: Message)
    requires Encodable(m.arguments)
    ensures Packet(m) == Packet(m)[0..]
            == PaddedString(m.address) + (PaddedString([COMMA] + Tags(m.arguments)) + Payload(m.arguments))
  {
  }

  /** A clean message is read back from its packet as it was. */
  lemma ReadsMessage(m: Message)
    requires Encodable(m.arguments) && Clean(m)
    ensures ReadMessage(Packet(m)) == Ok(m)
  {
    var data, tags := Packet(m), [COMMA] + Tags(m.arguments);
    var tagsAt := |PaddedString(m.address)|;
    var argumentsAt := tagsAt + |PaddedString(tags)|;
    PacketSplits(m);
    ReadsPaddedString(data, 0, m.address, PaddedString(tags) + Payload(m.arguments));
    TagsAreNulFree(m.arguments);
    ReadsPaddedString(data, tagsAt, tags, Payload(m.arguments));
    ReadsArguments(data, m.arguments, argumentsAt);
    assert tags[1..] == Tags(m.arguments);
    ReadsParts(data, m, tags, tagsAt, argumentsAt);
  }

  lemma {:induction false} TagsAreNulFree(arguments: seq<Argument>)
    requires Encodable(arguments)
    ensures NulFree(Tags(arguments)) && NulFree([COMMA] + Tags(arguments))
    decreases |arguments|
  {
    if arguments != [] {
      assert Tag(arguments[0]).Ok?;
      TagsAreNulFree(arguments[1..]);
    }
  }

  /** The arguments read fit into the data that was there to read. */
  ghost predicate FitsFrom(arguments: seq<Argument>, offset: nat, length: nat)
    requires Encodable(arguments)
  {
    Payload(arguments) == [] || offset + |Payload(arguments)| <= length + 3
  }

  lemma FitsCons(first: Argument, rest: seq<Argument>, offset: nat, length: nat)
    requires Tag(first).Ok? && Encodable(rest)
    requires FitsFrom(rest, offset + |ArgumentBytes(first)|, length)
    requires first.Bool? || offset + |ArgumentBytes(first)| <= length + 3
    ensures Encodable([first] + rest) && FitsFrom([first] + rest, offset, length)
  {
    assert ([first] + rest)[1..] == rest;
  }

  /** Whatever is decoded has no NUL byte in its strings, can be encoded, and
      fits into the data. */
  lemma {:induction false} DecodedArgumentsFit(data: Bytes, tags: Bytes, offset: nat)
    requires offset % 4 == 0 && ReadArguments(data, tags, offset).Ok?
    ensures var arguments := ReadArguments(data, tags, offset).value;
            && |arguments| <= |tags|
            && Encodable(arguments) && CleanArguments(arguments)
            && FitsFrom(arguments, offset, |data|)
    decreases |tags|
  {
    if tags != [] && (offset + 4 <= |data| || tags[0] == TAG_TRUE || tags[0] == TAG_FALSE) {
      if tags[0] == TAG_BLOB {
        BlobIsSkipped(data, tags, offset);
        DecodedArgumentsFit(data, tags[1..], BlobEnd(data, offset));
      } else {
        var first, next := ReadOne(data, tags, offset);
        DecodedArgumentsFit(data, tags[1..], next);
        FitsCons(first, ReadArguments(data, tags[1..], next).value, offset, |data|);
      }
    }
  }

  function BlobEnd(data: Bytes, offset: nat): int
    requires offset + 4 <= |data|
  {
    (offset + 4 + UnpackInt(WordAt(data, offset)) + 3) / 4 * 4
  }

  lemma BlobIsSkipped(data: Bytes, tags: Bytes, offset: nat)
    requires offset % 4 == 0 && offset + 4 <= |data| && tags != [] && tags[0] == TAG_BLOB
    requires ReadArguments(data, tags, offset).Ok?
    ensures BlobEnd(data, offset) >= offset && BlobEnd(data, offset) % 4 == 0
    ensures ReadArguments(data, tags, offset) == ReadArguments(data, tags[1..], BlobEnd(data, offset))
  {
  }

  /** The argument read for a tag other than a blob's, and where the next starts. */
  lemma ReadOne(data: Bytes, tags: Bytes, offset: nat) returns (first: Argument, next: nat)
    requires offset % 4 == 0 && tags != [] && tags[0] != TAG_BLOB
    requires offset + 4 <= |data| || tags[0] == TAG_TRUE || tags[0] == TAG_FALSE
    requires ReadArguments(data, tags, offset).Ok?
    ensures Tag(first).Ok? && next == offset + |ArgumentBytes(first)| && next % 4 == 0
    ensures first.Bool? || next <= |data| + 3
    ensures first.Text? ==> NulFree(first.text)
    ensures ReadArguments(data, tags, offset) == Cons(first, ReadArguments(data, tags[1..], next))
  {
    var tag := tags[0];
    if tag == TAG_INT {
      first, next := Int(UnpackInt(WordAt(data, offset))), offset + 4;
    } else if tag == TAG_FLOAT {
      first, next := Float(WordAt(data, offset)), offset + 4;
    } else if tag == TAG_STRING {
      first, next := ReadOneString(data, offset);
    } else {
      first, next := Bool(tag == TAG_TRUE), offset;
    }
  }

  lemma ReadOneString(data: Bytes, offset: nat) returns (first: Argument, next: nat)
    requires offset % 4 == 0 && ReadPaddedString(data, offset).Ok?
    ensures first.Text? && NulFree(first.text)
    ensures ReadPaddedString(data, offset) == Ok((first.text, next))
    ensures next == offset + |PaddedString(first.text)| <= |data| + 3 && next % 4 == 0
  {
    var (text, end) := ReadPaddedString(data, offset).value;
    first, next := Text(text), end;
  }

  /** A decoded message is clean, can be encoded again, and its packet is at
      most seven bytes longer than the data it came from. */
  lemma DecodedMessageFits(data: Bytes)
    requires ReadMessage(data).Ok?
    ensures var m := ReadMessage(data).value;
            Clean(m) && Encodable(m.arguments) && |Packet(m)| <= |data| + 7
  {
    var address, start := ReadOneString(data, 0);
    if start < |data| {
      var tags, offset := ReadOneString(data, start);
      if tags.text != [] && tags.text[0] == COMMA {
        DecodedArgumentsFit(data, tags.text[1..], offset);
        PacketLength(ReadMessage(data).value);
      }
    }
  }

  lemma PacketLength(m: Message)
    requires Encodable(m.arguments)
    ensures |Packet(m)| == (|m.address| + 4) / 4 * 4 + (|m.arguments| + 5) / 4 * 4 + |Payload(m.arguments)|
  {
  }

  /** The round trip of `encode_message` and `decode_messages`, for every message
      the encoder accepts: it holds exactly when no string contains a NUL byte and
      the address does not look like a bundle header. */
  lemma RoundTripIff(m: Message)
    requires Encodable(m.arguments)
    ensures ReadPacket(Packet(m)) == Ok([m]) <==> Clean(m) && !(BUNDLE_TAG <= m.address)
    ensures |Packet(m)| % 4 == 0
  {
    PrefixOfPacket(m);
    if BUNDLE_TAG <= Packet(m) {
      if |Packet(m)| >= 16 {
        NoElementIsAsLong(Packet(m), m);
      }
    } else {
      SingleMessage(Packet(m), m);
      if Clean(m) {
        ReadsMessage(m);
      } else if ReadMessage(Packet(m)) == Ok(m) {
        DecodedMessageFits(Packet(m));
      }
    }
  }

  lemma SingleMessage(data: Bytes, m: Message)
    requires !(BUNDLE_TAG <= data)
    ensures ReadPacket(data) == Ok([m]) <==> ReadMessage(data) == Ok(m)
  {
    var read := ReadMessage(data);
    if read.Ok? {
      assert ReadPacket(data) == Ok([read.value] + []);
      assert ([read.value] + [])[0] == read.value;
      assert [m] + [] == [m] && [m][0] == m;
    }
  }

  /** A packet taken for a bundle cannot contain itself. */
  lemma NoElementIsAsLong(data: Bytes, m: Message)
    requires |data| >= 16 && Encodable(m.arguments) && |data| <= |Packet(m)|
    ensures ReadElements(data, 16) != Ok([m])
  {
    if ReadElements(data, 16) == Ok([m]) {
      var chunk := FirstElement(data, 16);
      DecodedMessageFits(chunk);
    }
  }

  lemma FirstElement(data: Bytes, offset: nat) returns (chunk: Bytes)
    requires ReadElements(data, offset).Ok? && |ReadElements(data, offset).value| > 0
    ensures ReadMessage(chunk) == Ok(ReadElements(data, offset).value[0])
    ensures offset + 4 + |chunk| <= |data|
  {
    var size := UnpackInt(WordAt(data, offset));
    chunk := data[offset + 4..offset + 4 + size];
  }

  /** A packet starts with the bundle header exactly when its address does. */
  lemma PrefixOfPacket(m: Message)
    requires Encodable(m.arguments)
    ensures BUNDLE_TAG <= m.address <==> BUNDLE_TAG <= Packet(m)
  {
    PaddingPads(m.address);
    HeaderInFirstPart(m.address, PaddedString(m.address), PaddedString([COMMA] + Tags(m.arguments)) + Payload(m.arguments));
    PacketSplits(m);
  }

  lemma HeaderInFirstPart(text: Bytes, piece: Bytes, rest: Bytes)
    requires IsPadded(piece, text)
    ensures BUNDLE_TAG <= text <==> BUNDLE_TAG <= piece + rest
  {
    var data := piece + rest;
    assert data[..|text|] == text && data[|text|] == 0;
    if |text| < 7 {
      assert BUNDLE_TAG[|text|] != 0;
    } else {
      assert data[..7] == text[..7];
    }
  }

  // ---- Bundles ----

  /** A bundle element is one message whose packet length fits its size field. */
  predicate Fits(m: Message) {
    Encodable(m.arguments) && Clean(m) && IsInt32(|Packet(m)|)
  }

  predicate AllFit(messages: seq<Message>) {
    messages == [] || (Fits(messages[0]) && AllFit(messages[1..]))
  }

  function Elements(messages: seq<Message>): (data: Bytes)
    requires AllFit(messages)
  {
    if messages == [] then []
    else PackInt(|Packet(messages[0])|) + (Packet(messages[0]) + Elements(messages[1..]))
  }

  /** A bundle as the OSC 1.0 Specification lays it out: "#bundle", a NUL, the
      time tag, and the size-prefixed elements. */
  function Bundle(timeTag: Bytes, messages: seq<Message>): (data: Bytes)
    requires |timeTag| == 8 && AllFit(messages)
    ensures BUNDLE_TAG <= data && |data| >= 16
  {
    BUNDLE_TAG + [0] + timeTag + Elements(messages)
  }

  /** The bytes taken up by the first `k` elements. */
  function Extent(messages: seq<Message>, k: nat): (n: nat)
    requires AllFit(messages) && k <= |messages|
    ensures k == 0 ==> n == 0
  {
    if k == 0 then 0 else 4 + |Packet(messages[0])| + Extent(messages[1..], k - 1)
  }

  lemma {:induction false} ExtentOfAll(messages: seq<Message>)
    requires AllFit(messages)
    ensures |Elements(messages)| == Extent(messages, |messages|)
    decreases |messages|
  {
    hide Packet, PackInt;
    if messages != [] {
      ExtentOfAll(messages[1..]);
    }
  }

  lemma {:induction false} ExtentGrows(messages: seq<Message>, k: nat)
    requires AllFit(messages) && k <= |messages|
    ensures Extent(messages, k) <= Extent(messages, |messages|)
    decreases k
  {
    if k > 0 {
      ExtentGrows(messages[1..], k - 1);
    }
  }

  lemma CutPrefix(data: Bytes, offset: nat, first: Bytes, rest: Bytes)
    requires offset <= |data| && data[offset..] <= first + rest && offset + |first| <= |data|
    ensures data[offset..offset + |first|] == first && data[offset + |first|..] <= rest
  {
    var part, all := data[offset..], first + rest;
    assert part == all[..|part|];
    assert data[offset..offset + |first|] == part[..|first|] == all[..|first|];
    assert data[offset + |first|..] == part[|first|..] == all[|first|..|part|];
  }

  lemma ReadsSize(data: Bytes, offset: nat, size: int, rest: Bytes)
    requires IsInt32(size) && offset + 4 <= |data| && data[offset..] <= PackInt(size) + rest
    ensures UnpackInt(WordAt(data, offset)) == size && data[offset + 4..] <= rest
  {
    CutPrefix(data, offset, PackInt(size), rest);
    PackThenUnpack(size);
  }

  /** An element that is there completely. */
  lemma ReadsElement(data: Bytes, offset: nat, m: Message, rest: Bytes)
    requires Fits(m) && offset + 4 + |Packet(m)| <= |data|
    requires data[offset..] <= PackInt(|Packet(m)|) + (Packet(m) + rest)
    ensures var next := offset + 4 + |Packet(m)|;
            && data[next..] <= rest
            && ReadElements(data, offset) == ConsMessage(Ok(m), ReadElements(data, next))
  {
    hide Packet, PackInt, ReadElements, ReadMessage;
    ReadsMessage(m);
    PacketIsNotEmpty(m);
    ReadsChunk(data, offset, Packet(m), m, rest);
  }

  lemma ReadsChunk(data: Bytes, offset: nat, chunk: Bytes, m: Message, rest: Bytes)
    requires ReadMessage(chunk) == Ok(m) && chunk != [] && IsInt32(|chunk|)
    requires offset + 4 + |chunk| <= |data| && data[offset..] <= PackInt(|chunk|) + (chunk + rest)
    ensures data[offset + 4 + |chunk|..] <= rest
    ensures ReadElements(data, offset) == ConsMessage(Ok(m), ReadElements(data, offset + 4 + |chunk|))
  {
    hide PackInt, UnpackInt, ReadElements, ReadMessage;
    ReadsSize(data, offset, |chunk|, chunk + rest);
    CutPrefix(data, offset + 4, chunk, rest);
    ElementStep(data, offset, |chunk|, m);
  }

  lemma PacketIsNotEmpty(m: Message)
    requires Encodable(m.arguments)
    ensures |Packet(m)| > 0
  {
  }

  lemma ElementStep(data: Bytes, offset: nat, size: nat, m: Message)
    requires size > 0 && offset + 4 + size <= |data|
    requires UnpackInt(WordAt(data, offset)) == size
    requires ReadMessage(data[offset + 4..offset + 4 + size]) == Ok(m)
    ensures ReadElements(data, offset) == ConsMessage(Ok(m), ReadElements(data, offset + 4 + size))
  {
  }

  /** An element that is cut off ends the list. */
  lemma SkipsCutElement(data: Bytes, offset: nat, m: Message, rest: Bytes)
    requires Fits(m) && offset <= |data| < offset + 4 + |Packet(m)|
    requires data[offset..] <= PackInt(|Packet(m)|) + (Packet(m) + rest)
    ensures ReadElements(data, offset) == Ok([])
  {
    var size := |Packet(m)|;
    if offset + 4 <= |data| {
      ReadsSize(data, offset, size, Packet(m) + rest);
    }
  }

  lemma NothingLeft(data: Bytes, offset: nat)
    requires offset + 4 > |data|
    ensures ReadElements(data, offset) == Ok([])
  {
  }

  /** Reading elements from data that stops somewhere inside `messages` yields
      the messages that are there completely. */
  lemma {:induction false} ReadsCutElements(data: Bytes, offset: nat, messages: seq<Message>) returns (k: nat)
    requires AllFit(messages)
    requires offset <= |data| && data[offset..] <= Elements(messages)
    ensures k <= |messages| && ReadElements(data, offset) == Ok(messages[..k])
    ensures offset + Extent(messages, k) <= |data|
    ensures k < |messages| ==> |data| < offset + Extent(messages, k + 1)
    decreases |messages|
  {
    hide Packet, PackInt, ReadElements, ReadMessage;
    k := 0;
    if messages == [] {
      NothingLeft(data, offset);
    } else {
      var m, rest := messages[0], messages[1..];
      if |data| < offset + 4 + |Packet(m)| {
        SkipsCutElement(data, offset, m, Elements(rest));
      } else {
        ReadsElement(data, offset, m, Elements(rest));
        var j := ReadsCutElements(data, offset + 4 + |Packet(m)|, rest);
        k := j + 1;
        assert messages[..k] == [m] + rest[..j];
      }
    }
  }

  /** A bundle decodes to its messages in order; cut off at any length that
      leaves the header, it decodes to exactly the messages that are complete. */
  lemma CutBundleYieldsCompleteMessages(timeTag: Bytes, messages: seq<Message>, length: nat)
    requires |timeTag| == 8 && AllFit(messages)
    requires 16 <= length <= |Bundle(timeTag, messages)|
    ensures exists k :: 0 <= k <= |messages|
              && ReadPacket(Bundle(timeTag, messages)[..length]) == Ok(messages[..k])
              && 16 + Extent(messages, k) <= length
              && (k < |messages| ==> length < 16 + Extent(messages, k + 1))
  {
    var k := ReadsCutBundle(timeTag, messages, length);
  }

  lemma BundleRoundTrip(timeTag: Bytes, messages: seq<Message>)
    requires |timeTag| == 8 && AllFit(messages)
    ensures ReadPacket(Bundle(timeTag, messages)) == Ok(messages)
  {
    hide Bundle, Extent, Elements, ReadPacket;
    var whole := Bundle(timeTag, messages);
    assert whole[..|whole|] == whole;
    var k := ReadsCutBundle(timeTag, messages, |whole|);
    if k < |messages| {
      EveryElementIsInside(timeTag, messages, k + 1);
    } else {
      assert messages[..k] == messages;
    }
  }

  lemma EveryElementIsInside(timeTag: Bytes, messages: seq<Message>, k: nat)
    requires |timeTag| == 8 && AllFit(messages) && k <= |messages|
    ensures 16 + Extent(messages, k) <= |Bundle(timeTag, messages)|
  {
    ExtentOfAll(messages);
    ExtentGrows(messages, k);
  }

  lemma ReadsCutBundle(timeTag: Bytes, messages: seq<Message>, length: nat) returns (k: nat)
    requires |timeTag| == 8 && AllFit(messages)
    requires 16 <= length <= |Bundle(timeTag, messages)|
    ensures k <= |messages| && ReadPacket(Bundle(timeTag, messages)[..length]) == Ok(messages[..k])
    ensures 16 + Extent(messages, k) <= length
    ensures k < |messages| ==> length < 16 + Extent(messages, k + 1)
  {
    var whole := Bundle(timeTag, messages);
    var data := whole[..length];
    assert whole[16..] == Elements(messages);
    assert data[16..] == whole[16..length] == whole[16..][..length - 16];
    assert BUNDLE_TAG <= data;
    k := ReadsCutElements(data, 16, messages);
  }
}
