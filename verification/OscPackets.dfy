/** What the OSC decoder makes of packets that the encoder does not write: with
    blobs, without type tags, with unknown ones, or cut off anywhere. The layout
    is that of OSC 1.0, written out here byte by byte. */
module OscPackets {
  import opened Common
  import opened OscProtocol
  import opened OscRoundTrip

  // ---- The layout of a packet ----

  function Zeros(n: nat): (zeros: Bytes)
    ensures |zeros| == n && forall z :: z in zeros ==> z == 0
  {
    seq(n, _ => 0)
  }

  /** A string, and one to four zeros up to a multiple of four bytes. */
  function OscString(text: Bytes): (data: Bytes)
    ensures |data| % 4 == 0 && |text| < |data| <= |text| + 4
  {
    text + Zeros(4 - |text| % 4)
  }

  /** A blob, and up to three zeros. */
  function Aligned(blob: Bytes): (data: Bytes)
    ensures |data| % 4 == 0 && |blob| <= |data| < |blob| + 4
  {
    blob + Zeros((4 - |blob| % 4) % 4)
  }

  /** Big-endian, in two's complement. */
  function OscInt(v: int): (word: Word)
  {
    var u := v % 0x1_0000_0000;
    var high := u / 0x100;
    var higher := high / 0x100;
    [(higher / 0x100) as byte, (higher % 0x100) as byte, (high % 0x100) as byte, (u % 0x100) as byte]
  }

  /** What a packet can carry: a value, a blob, or something of another type. */
  datatype Item = Value(argument: Argument) | Blob(data: Bytes) | Unknown(tag: byte, data: Bytes)

  predicate IsItem(item: Item) {
    match item
    case Value(Int(v)) => -0x8000_0000 <= v < 0x8000_0000
    case Value(Text(text)) => 0 !in text
    case Value(argument) => !argument.Other?
    case Blob(data) => |data| < 0x8000_0000
    case Unknown(tag, data) => tag !in [84, 70, 105, 102, 115, 98, 0] && |data| % 4 == 0
  }

  predicate AllItems(items: seq<Item>) {
    forall item :: item in items ==> IsItem(item)
  }

  /** T, F, i, f, s and b, or another letter. */
  function WireTag(item: Item): (tag: byte)
    requires IsItem(item)
    ensures tag != 0
  {
    match item
    case Value(Bool(flag)) => if flag then 84 else 70
    case Value(Int(_)) => 105
    case Value(Float(_)) => 102
    case Value(Text(_)) => 115
    case Blob(_) => 98
    case Unknown(tag, _) => tag
  }

  function WireTags(items: seq<Item>): (tags: Bytes)
    requires AllItems(items)
    ensures |tags| == |items| && 0 !in tags
  {
    if items == [] then [] else [WireTag(items[0])] + WireTags(items[1..])
  }

  function WireBytes(item: Item): (data: Bytes)
    requires IsItem(item)
    ensures |data| % 4 == 0
  {
    match item
    case Value(Bool(_)) => []
    case Value(Int(v)) => OscInt(v)
    case Value(Float(word)) => word
    case Value(Text(text)) => OscString(text)
    case Blob(blob) => OscInt(|blob|) + Aligned(blob)
    case Unknown(_, data) => data
  }

  function WireData(items: seq<Item>): (data: Bytes)
    requires AllItems(items)
    ensures |data| % 4 == 0
  {
    if items == [] then []
    else
      AlignedSum(|WireBytes(items[0])|, |WireData(items[1..])|);
      WireBytes(items[0]) + WireData(items[1..])
  }

  function Values(items: seq<Item>): (values: seq<Argument>) {
    if items == [] then []
    else (if items[0].Value? then [items[0].argument] else []) + Values(items[1..])
  }

  function OscPacket(address: Bytes, items: seq<Item>): Bytes
    requires AllItems(items)
  {
    OscString(address) + (OscString([44] + WireTags(items)) + WireData(items))
  }

  /** What is read of the items when `n` bytes of their data are there: T and F
      need no data, anything else at least four bytes. Less ends the list; a
      string without its zero and an unknown type are errors; and a number or a
      blob counts with all its bytes, there or not. */
  function Cut(items: seq<Item>, n: int): Result<seq<Argument>, Error>
    requires AllItems(items)
  {
    if items == [] then Ok([])
    else After(items[0], n, Cut(items[1..], n - |WireBytes(items[0])|))
  }

  function After(item: Item, n: int, rest: Result<seq<Argument>, Error>): Result<seq<Argument>, Error> {
    if n < 4 && !(item.Value? && item.argument.Bool?) then Ok([])
    else if item.Unknown? || (item.Value? && item.argument.Text? && n <= |item.argument.text|) then Err(ValueError)
    else if rest.Err? || item.Blob? then rest
    else Ok([item.argument] + rest.value)
  }

  // ---- Reading strings and numbers ----

  /** The number in four bytes, the first counting most. */
  function Unsigned(word: Word): int {
    word[0] as int * 0x100_0000 + word[1] as int * 0x1_0000 + word[2] as int * 0x100 + word[3] as int
  }

  lemma OscIntIsBigEndian(v: int)
    ensures Unsigned(OscInt(v)) == v % 0x1_0000_0000
  {
  }

  lemma SameWord(a: Word, b: Word)
    requires Unsigned(a) == Unsigned(b)
    ensures a == b
  {
    var a1, b1 := a[0] as int * 0x100 + a[1] as int, b[0] as int * 0x100 + b[1] as int;
    SameDigits(a1 * 0x100 + a[2] as int, a[3] as int, b1 * 0x100 + b[2] as int, b[3] as int);
    SameDigits(a1, a[2] as int, b1, b[2] as int);
    SameDigits(a[0] as int, a[1] as int, b[0] as int, b[1] as int);
  }

  lemma SameDigits(high: int, low: int, high': int, low': int)
    requires 0 <= low < 0x100 && 0 <= low' < 0x100 && high * 0x100 + low == high' * 0x100 + low'
    ensures high == high' && low == low'
  {
  }

  lemma PackedInt(v: int)
    requires -0x8000_0000 <= v < 0x8000_0000
    ensures PackInt(v) == OscInt(v) && UnpackInt(OscInt(v)) == v
  {
    hide PackInt, OscInt;
    PackThenUnpack(v);
    OscIntIsBigEndian(v);
    SameWord(PackInt(v), OscInt(v));
  }

  /** A string that may be cut off: it is there as soon as a zero is. */
  lemma ReadsCutString(data: Bytes, offset: nat, text: Bytes, rest: Bytes)
    requires 0 !in text && offset % 4 == 0 && offset <= |data| && data[offset..] <= OscString(text) + rest
    ensures ReadPaddedString(data, offset) ==
            if |data| - offset <= |text| then Err(ValueError) else Ok((text, offset + |OscString(text)|))
  {
    PrefixAt(data, offset, OscString(text) + rest);
    if |data| - offset > |text| {
      assert data[offset + |text|] == OscString(text)[|text|] == 0;
      assert data[offset..offset + |text|] == text;
    }
  }

  lemma PrefixAt(data: Bytes, offset: nat, all: Bytes)
    requires offset <= |data| && data[offset..] <= all
    ensures forall i :: offset <= i < |data| ==> data[i] == all[i - offset]
  {
    forall i | offset <= i < |data|
      ensures data[i] == all[i - offset]
    {
      assert data[offset..][i - offset] == all[i - offset];
    }
  }

  lemma SplitPrefix(data: Bytes, offset: nat, first: Bytes, rest: Bytes)
    requires offset <= |data| && data[offset..] <= first + rest
    ensures offset + |first| <= |data| ==>
              data[offset..offset + |first|] == first && data[offset + |first|..] <= rest
  {
    if offset + |first| <= |data| {
      var all := data[offset..];
      assert all[..|first|] == (first + rest)[..|first|];
      assert all[|first|..] == (first + rest)[|first|..|all|];
    }
  }

  // ---- Reading items ----

  /** One item is read, and the next tags from behind its bytes. */
  lemma ReadsItem(data: Bytes, item: Item, tags: Bytes, offset: nat, rest: Bytes)
    requires IsItem(item) && tags != [] && tags[0] == WireTag(item) && offset % 4 == 0
    requires offset <= |data| ==> data[offset..] <= WireBytes(item) + rest
    ensures ReadArguments(data, tags, offset)
            == After(item, |data| - offset, ReadArguments(data, tags[1..], offset + |WireBytes(item)|))
  {
    hide PackInt, UnpackInt, OscInt, OscString, Aligned, ReadPaddedString;
    if offset + 4 <= |data| && (item.Blob? || !item.Value? || !item.argument.Bool?) {
      match item {
        case Value(Int(v)) =>
          PackedInt(v);
          SplitPrefix(data, offset, OscInt(v), rest);
        case Value(Float(word)) =>
          SplitPrefix(data, offset, word, rest);
        case Value(Text(text)) =>
          ReadsCutString(data, offset, text, rest);
        case Blob(blob) =>
          SkipsBlob(data, blob, tags, offset, rest);
        case Unknown(_, _) =>
      }
    }
  }

  lemma SkipsBlob(data: Bytes, blob: Bytes, tags: Bytes, offset: nat, rest: Bytes)
    requires |blob| < 0x8000_0000 && tags != [] && tags[0] == 98 && offset % 4 == 0 && offset + 4 <= |data|
    requires data[offset..] <= OscInt(|blob|) + Aligned(blob) + rest
    ensures ReadArguments(data, tags, offset) == ReadArguments(data, tags[1..], offset + 4 + |Aligned(blob)|)
  {
    hide PackInt, UnpackInt, OscInt;
    PackedInt(|blob|);
    assert OscInt(|blob|) + Aligned(blob) + rest == OscInt(|blob|) + (Aligned(blob) + rest);
    SplitPrefix(data, offset, OscInt(|blob|), Aligned(blob) + rest);
    AlignedEnd(offset + 4, |blob|, |Aligned(blob)|);
  }

  lemma AlignedEnd(offset: nat, size: nat, aligned: nat)
    requires offset % 4 == 0 && aligned % 4 == 0 && size <= aligned < size + 4
    ensures (offset + size + 3) / 4 * 4 == offset + aligned
  {
  }

  lemma {:induction false} ReadsItems(data: Bytes, items: seq<Item>, offset: nat)
    requires AllItems(items) && offset % 4 == 0
    requires offset <= |data| ==> data[offset..] <= WireData(items)
    ensures ReadArguments(data, WireTags(items), offset) == Cut(items, |data| - offset)
    decreases |items|
  {
    if items != [] {
      var bytes, rest := WireBytes(items[0]), WireData(items[1..]);
      ReadsItem(data, items[0], WireTags(items), offset, rest);
      if offset <= |data| {
        SplitPrefix(data, offset, bytes, rest);
      }
      AlignedSum(offset, |bytes|);
      ReadsItems(data, items[1..], offset + |bytes|);
    }
  }

  // ---- Reading packets ----

  function Decoded(address: Bytes, arguments: Result<seq<Argument>, Error>): Result<seq<Message>, Error> {
    match arguments
    case Ok(values) => Ok([Message(address, values)])
    case Err(e) => Err(e)
  }

  /** An address that is no bundle header, in plain bytes. */
  predicate IsAddress(address: Bytes) {
    0 !in address && !([35, 98, 117, 110, 100, 108, 101] <= address)
  }

  lemma NoBundle(data: Bytes, address: Bytes, rest: Bytes)
    requires IsAddress(address) && data <= OscString(address) + rest
    ensures !(BUNDLE_TAG <= data)
  {
    assert address + Zeros(4 - |address| % 4) == OscString(address);
    if |address| < 7 {
      assert |address| < |data| ==> data[|address|] == OscString(address)[|address|] == 0;
      assert BUNDLE_TAG[|address|] != 0;
    } else if 7 <= |data| {
      assert data[..7] == (OscString(address) + rest)[..7] == address[..7];
    }
  }

  lemma ReadsOne(data: Bytes)
    requires !(BUNDLE_TAG <= data)
    ensures ReadPacket(data) == match ReadMessage(data) case Ok(m) => Ok([m]) case Err(e) => Err(e)
  {
    if ReadMessage(data).Ok? {
      SingleMessage(data, ReadMessage(data).value);
    }
  }

  /** The packet of any items, cut off after any number of bytes. */
  lemma CutPacket(address: Bytes, items: seq<Item>, n: nat)
    requires IsAddress(address) && AllItems(items) && n <= |OscPacket(address, items)|
    ensures var read, tagsAt := ReadPacket(OscPacket(address, items)[..n]), |OscString(address)|;
            var dataAt := tagsAt + |OscString([44] + WireTags(items))|;
            && (n <= |address| ==> read == Err(ValueError))
            && (|address| < n <= tagsAt ==> read == Ok([Message(address, [])]))
            && (tagsAt < n <= tagsAt + 1 + |items| ==> read == Err(ValueError))
            && (tagsAt + 1 + |items| < n ==> read == Decoded(address, Cut(items, n - dataAt)))
  {
    hide OscString, WireData, WireTags, ReadPaddedString, ReadArguments, ReadElements, Cut;
    var tags := [44] + WireTags(items);
    var behind := OscString(tags) + WireData(items);
    var data, tagsAt := OscPacket(address, items)[..n], |OscString(address)|;
    NoBundle(data, address, behind);
    ReadsOne(data);
    assert data[0..] == data;
    ReadsCutString(data, 0, address, behind);
    if tagsAt < n {
      SplitPrefix(data, 0, OscString(address), behind);
      ReadsCutString(data, tagsAt, tags, WireData(items));
      SplitPrefix(data, tagsAt, OscString(tags), WireData(items));
      assert tags[1..] == WireTags(items);
      ReadsItems(data, items, tagsAt + |OscString(tags)|);
    }
  }

  /** A second string that does not start with a comma, and whatever follows it,
      is not looked at; an address alone has no arguments. */
  lemma WithoutTags(address: Bytes, other: Bytes, rest: Bytes)
    requires IsAddress(address) && 0 !in other && (other == [] || other[0] != 44)
    ensures ReadPacket(OscString(address) + (OscString(other) + rest)) == Ok([Message(address, [])])
    ensures ReadPacket(OscString(address)) == Ok([Message(address, [])])
  {
    hide OscString, ReadPaddedString, ReadArguments, ReadElements;
    var behind := OscString(other) + rest;
    var data, alone := OscString(address) + behind, OscString(address);
    NoBundle(data, address, behind);
    ReadsOne(data);
    assert data[0..] == data;
    ReadsCutString(data, 0, address, behind);
    SplitPrefix(data, 0, alone, behind);
    ReadsCutString(data, |alone|, other, rest);
    assert alone + [] == alone && alone[0..] == alone;
    NoBundle(alone, address, []);
    ReadsOne(alone);
    ReadsCutString(alone, 0, address, []);
  }

  // ---- What follows for packets that are cut off ----

  /** Where the data of item `k` starts. */
  function Start(items: seq<Item>, k: nat): (n: nat)
    requires AllItems(items) && k <= |items|
  {
    if k == 0 then 0 else |WireBytes(items[0])| + Start(items[1..], k - 1)
  }

  predicate NeedsData(item: Item) {
    !(item.Value? && item.argument.Bool?)
  }

  /** Item `k` is the first for which `n` bytes are not enough to read a number. */
  predicate Starved(items: seq<Item>, k: nat, n: int)
    requires AllItems(items)
  {
    k < |items| && NeedsData(items[k]) && n - Start(items, k) < 4
  }

  /** Reading the items of `n` bytes gives the values before the first item whose
      first four bytes are not there, or else of all of them; and it fails at a
      string without its end or at a type that is not known, if that comes first. */
  lemma {:induction false} CutYieldsFirstValues(items: seq<Item>, n: int) returns (k: nat)
    requires AllItems(items)
    ensures k <= |items| && forall j :: 0 <= j < k ==> !Starved(items, j, n) && !items[j].Unknown?
    ensures Cut(items, n).Ok? ==> Cut(items, n).value == Values(items[..k]) && (k == |items| || Starved(items, k, n))
    ensures Cut(items, n).Err? ==>
              && Cut(items, n).error == ValueError && k < |items| && n - Start(items, k) >= 4
              && (items[k].Unknown?
                  || exists text :: items[k] == Value(Text(text)) && n - Start(items, k) <= |text|)
    decreases |items|
  {
    hide WireBytes, IsItem;
    if items == [] || Starved(items, 0, n) || After(items[0], n, Ok([])).Err? {
      k := 0;
    } else {
      var next := CutYieldsFirstValues(items[1..], n - |WireBytes(items[0])|);
      k := next + 1;
      assert items[..k][1..] == items[1..][..next];
      forall j | 0 <= j < k
        ensures !Starved(items, j, n) && !items[j].Unknown?
      {
        if j > 0 {
          assert !Starved(items[1..], j - 1, n - |WireBytes(items[0])|);
        }
      }
    }
  }

  /** A whole packet without unknown types gives all its values; blobs of any size
      are left out and change nothing else. */
  lemma {:induction false} WholeItems(items: seq<Item>)
    requires AllItems(items) && forall item :: item in items ==> !item.Unknown?
    ensures Cut(items, |WireData(items)|) == Ok(Values(items))
    decreases |items|
  {
    hide OscString, OscInt, Aligned;
    if items != [] {
      WholeItems(items[1..]);
      assert [] + Values(items[1..]) == Values(items[1..]);
      if NeedsData(items[0]) {
        WordOrMore(items[0]);
      }
    }
  }

  lemma WordOrMore(item: Item)
    requires IsItem(item) && NeedsData(item) && !item.Unknown?
    ensures |WireBytes(item)| >= 4
  {
  }

  lemma WholePacket(address: Bytes, items: seq<Item>)
    requires IsAddress(address) && AllItems(items) && forall item :: item in items ==> !item.Unknown?
    ensures ReadPacket(OscPacket(address, items)) == Ok([Message(address, Values(items))])
  {
    hide OscString, WireData, WireTags, ReadPacket, Cut;
    var packet := OscPacket(address, items);
    CutPacket(address, items, |packet|);
    assert packet[..|packet|] == packet;
    WholeItems(items);
  }

  // ---- What the encoder writes ----

  function Items(arguments: seq<Argument>): (items: seq<Item>)
    ensures |items| == |arguments| && forall i :: 0 <= i < |items| ==> items[i] == Value(arguments[i])
  {
    seq(|arguments|, i requires 0 <= i < |arguments| => Value(arguments[i]))
  }

  lemma PaddedIsOscString(text: Bytes)
    ensures PaddedString(text) == OscString(text)
  {
    assert [0 as byte] + PADDING[..(4 - |text + [0]| % 4) % 4] == Zeros(4 - |text| % 4);
  }

  /** The encoder writes this layout for its arguments. */
  lemma EncoderWritesLayout(m: Message)
    requires Encodable(m.arguments) && CleanArguments(m.arguments)
    ensures AllItems(Items(m.arguments)) && Packet(m) == OscPacket(m.address, Items(m.arguments))
    ensures Values(Items(m.arguments)) == m.arguments
  {
    hide OscString, PaddedString, WireTags, WireData, Tags, Payload;
    ItemsLayout(m.arguments);
    PaddedIsOscString(m.address);
    PaddedIsOscString([COMMA] + Tags(m.arguments));
    PacketSplits(m);
  }

  lemma {:induction false} ItemsLayout(arguments: seq<Argument>)
    requires Encodable(arguments) && CleanArguments(arguments)
    ensures var items := Items(arguments);
            && AllItems(items) && Values(items) == arguments
            && Tags(arguments) == WireTags(items) && Payload(arguments) == WireData(items)
    decreases |arguments|
  {
    hide PaddedString, OscString, PackInt, OscInt;
    forall a | a in arguments
      ensures IsItem(Value(a))
    {
      assert Tag(a).Ok?;
    }
    if arguments != [] {
      TailIsClean(arguments);
      ItemsLayout(arguments[1..]);
      assert Items(arguments)[1..] == Items(arguments[1..]);
      SameBytes(arguments[0]);
    }
  }

  lemma SameBytes(a: Argument)
    requires Tag(a).Ok? && IsItem(Value(a))
    ensures Tag(a).value == WireTag(Value(a)) && ArgumentBytes(a) == WireBytes(Value(a))
  {
    hide PaddedString, OscString, PackInt, OscInt;
    match a {
      case Int(v) => PackedInt(v);
      case Text(text) => PaddedIsOscString(text);
      case _ =>
    }
  }
}
