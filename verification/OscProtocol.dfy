/** OSC 1.0 messages and bundles as byte sequences. Strings are their encoded
    bytes and a float32 is its opaque word. The functions say what a packet
    means; the methods are the loops that build and take it apart. */
module OscProtocol {
  import opened Common

  newtype byte = x: int | 0 <= x < 256

  type Bytes = seq<byte>

  type Word = w: Bytes | |w| == 4 witness [0, 0, 0, 0]

  /** `Other` stands for a Python value that is no bool, int, float or str. */
  datatype Argument =
    | Bool(flag: bool)
    | Int(number: int)
    | Float(word: Word)
    | Text(text: Bytes)
    | Other

  datatype Message = Message(address: Bytes, arguments: seq<Argument>)

  /** The exceptions of the codec; a negative blob size is not modelled further. */
  datatype Error = TypeError | StructError | ValueError | NegativeBlobSize

  const COMMA: byte := 44
  const TAG_TRUE: byte := 84
  const TAG_FALSE: byte := 70
  const TAG_INT: byte := 105
  const TAG_FLOAT: byte := 102
  const TAG_STRING: byte := 115
  const TAG_BLOB: byte := 98
  const BUNDLE_TAG: Bytes := [35, 98, 117, 110, 100, 108, 101] // "#bundle"

  // ---- Encoding ----

  predicate IsInt32(v: int) {
    -0x8000_0000 <= v < 0x8000_0000
  }

  /** `struct.pack(">i", v)`: big-endian two's complement. */
  function PackInt(v: int): (word: Word)
    requires IsInt32(v)
  {
    var u := if v < 0 then v + 0x1_0000_0000 else v;
    [(u / 0x100_0000) as byte, (u / 0x1_0000 % 256) as byte, (u / 0x100 % 256) as byte, (u % 256) as byte]
  }

  function UnpackInt(word: Word): (v: int)
    ensures IsInt32(v)
  {
    var u := word[0] as int * 0x100_0000 + word[1] as int * 0x1_0000 + word[2] as int * 0x100 + word[3] as int;
    if u >= 0x8000_0000 then u - 0x1_0000_0000 else u
  }

  const PADDING: Bytes := [0, 0, 0]

  function Pad4(data: Bytes): (padded: Bytes)
    ensures |padded| % 4 == 0 && |data| <= |padded| < |data| + 4
    ensures data <= padded
  {
    data + PADDING[..(4 - |data| % 4) % 4]
  }

  function PaddedString(text: Bytes): (padded: Bytes)
    ensures |padded| == (|text| + 1 + 3) / 4 * 4
  {
    Pad4(text + [0])
  }

  lemma AlignedSum(a: nat, b: nat)
    requires a % 4 == 0 && b % 4 == 0
    ensures (a + b) % 4 == 0
  {
  }

  function Tag(argument: Argument): Result<byte, Error> {
    match argument
    case Bool(flag) => Ok(if flag then TAG_TRUE else TAG_FALSE)
    case Int(v) => if IsInt32(v) then Ok(TAG_INT) else Err(StructError)
    case Float(_) => Ok(TAG_FLOAT)
    case Text(_) => Ok(TAG_STRING)
    case Other => Err(TypeError)
  }

  predicate Encodable(arguments: seq<Argument>) {
    forall a :: a in arguments ==> Tag(a).Ok?
  }

  function Tags(arguments: seq<Argument>): (tags: Bytes)
    requires Encodable(arguments)
    ensures |tags| == |arguments|
  {
    if arguments == [] then []
    else [Tag(arguments[0]).value] + Tags(arguments[1..])
  }

  function ArgumentBytes(argument: Argument): (data: Bytes)
    requires Tag(argument).Ok?
    ensures |data| % 4 == 0
  {
    match argument
    case Bool(_) => []
    case Int(v) => PackInt(v)
    case Float(word) => word
    case Text(text) => PaddedString(text)
  }

  function Payload(arguments: seq<Argument>): (data: Bytes)
    requires Encodable(arguments)
    ensures |data| % 4 == 0
  {
    if arguments == [] then []
    else
      var first, rest := ArgumentBytes(arguments[0]), Payload(arguments[1..]);
      AlignedSum(|first|, |rest|);
      first + rest
  }

  /** The packet of a message, provided no argument makes the encoder raise. */
  function Packet(message: Message): (data: Bytes)
    requires Encodable(message.arguments)
    ensures |data| % 4 == 0
  {
    var address, tags := PaddedString(message.address), PaddedString([COMMA] + Tags(message.arguments));
    AlignedSum(|address|, |tags|);
    AlignedSum(|address| + |tags|, |Payload(message.arguments)|);
    address + tags + Payload(message.arguments)
  }

  // ---- Decoding ----

  /** `data.find(b"\x00", offset)` */
  function FindZero(data: Bytes, offset: nat): (end: Option<nat>)
    ensures end.Some? ==>
              && offset <= end.value < |data| && data[end.value] == 0
              && forall i :: offset <= i < end.value ==> data[i] != 0
    ensures end.None? ==> forall i :: offset <= i < |data| ==> data[i] != 0
    decreases |data| - offset
  {
    if offset >= |data| then None
    else if data[offset] == 0 then Some(offset)
    else FindZero(data, offset + 1)
  }

  function ReadPaddedString(data: Bytes, offset: nat): Result<(Bytes, nat), Error> {
    match FindZero(data, offset)
    case None => Err(ValueError)
    case Some(end) => Ok((data[offset..end], (end + 1 + 3) / 4 * 4))
  }

  function WordAt(data: Bytes, offset: nat): (word: Word)
    requires offset + 4 <= |data|
  {
    data[offset..offset + 4]
  }

  function Cons(first: Argument, rest: Result<seq<Argument>, Error>): Result<seq<Argument>, Error> {
    match rest
    case Ok(arguments) => Ok([first] + arguments)
    case Err(_) => rest
  }

  /** The arguments for the type tags `tags`, read from `offset` on. Data that
      runs out ends the list; T and F need no data. */
  function ReadArguments(data: Bytes, tags: Bytes, offset: nat): Result<seq<Argument>, Error>
    decreases |tags|
  {
    if tags == [] then Ok([])
    else
      var tag, rest := tags[0], tags[1..];
      if offset + 4 > |data| && tag != TAG_TRUE && tag != TAG_FALSE then Ok([])
      else if tag == TAG_INT then Cons(Int(UnpackInt(WordAt(data, offset))), ReadArguments(data, rest, offset + 4))
      else if tag == TAG_FLOAT then Cons(Float(WordAt(data, offset)), ReadArguments(data, rest, offset + 4))
      else if tag == TAG_STRING then
        match ReadPaddedString(data, offset)
        case Err(e) => Err(e)
        case Ok((text, next)) => Cons(Text(text), ReadArguments(data, rest, next))
      else if tag == TAG_BLOB then
        var size := UnpackInt(WordAt(data, offset));
        if size < 0 then Err(NegativeBlobSize)
        else ReadArguments(data, rest, (offset + 4 + size + 3) / 4 * 4)
      else if tag == TAG_TRUE then Cons(Bool(true), ReadArguments(data, rest, offset))
      else if tag == TAG_FALSE then Cons(Bool(false), ReadArguments(data, rest, offset))
      else Err(ValueError)
  }

  function ReadMessage(data: Bytes): Result<Message, Error> {
    if data == [] then Err(ValueError)
    else match ReadPaddedString(data, 0)
      case Err(e) => Err(e)
      case Ok((address, offset)) =>
        if offset >= |data| then Ok(Message(address, []))
        else match ReadPaddedString(data, offset)
          case Err(e) => Err(e)
          case Ok((tags, start)) =>
            if tags == [] || tags[0] != COMMA then Ok(Message(address, []))
            else match ReadArguments(data, tags[1..], start)
              case Err(e) => Err(e)
              case Ok(arguments) => Ok(Message(address, arguments))
  }

  function ConsMessage(first: Result<Message, Error>, rest: Result<seq<Message>, Error>): Result<seq<Message>, Error> {
    match first
    case Err(e) => Err(e)
    case Ok(message) =>
      match rest
      case Err(e) => Err(e)
      case Ok(messages) => Ok([message] + messages)
  }

  /** The size-prefixed elements of a bundle from `offset` on; a damaged or cut
      off element ends the list. */
  function ReadElements(data: Bytes, offset: nat): Result<seq<Message>, Error>
    decreases |data| - offset
  {
    if offset + 4 > |data| then Ok([])
    else
      var size := UnpackInt(WordAt(data, offset));
      if size <= 0 || offset + 4 + size > |data| then Ok([])
      else ConsMessage(ReadMessage(data[offset + 4..offset + 4 + size]), ReadElements(data, offset + 4 + size))
  }

  function ReadPacket(data: Bytes): Result<seq<Message>, Error> {
    if BUNDLE_TAG <= data then
      if |data| < 16 then Err(ValueError) else ReadElements(data, 16)
    else ConsMessage(ReadMessage(data), Ok([]))
  }

  // ---- The loops ----

  method EncodeMessage(address: Bytes, arguments: seq<Argument>) returns (r: Result<Bytes, Error>)
    ensures Encodable(arguments) ==> r == Ok(Packet(Message(address, arguments)))
    ensures !Encodable(arguments) ==>
              exists i :: 0 <= i < |arguments| && Tag(arguments[i]).Err? && Encodable(arguments[..i])
                && r == Err(Tag(arguments[i]).error)
  {
    var payload := Pad4(address + [0]);
    var typeTags: Bytes := [COMMA];
    var argumentBytes: Bytes := [];
    for i := 0 to |arguments|
      invariant Encodable(arguments[..i])
      invariant typeTags == [COMMA] + Tags(arguments[..i])
      invariant argumentBytes == Payload(arguments[..i])
    {
      PayloadAppend(arguments[..i], arguments[i]);
      assert arguments[..i + 1] == arguments[..i] + [arguments[i]];
      var tag, data := EncodeArgument(arguments[i]);
      if tag.Err? {
        return Err(tag.error);
      }
      typeTags := typeTags + [tag.value];
      argumentBytes := argumentBytes + data;
    }
    assert arguments[..|arguments|] == arguments;
    payload := payload + Pad4(typeTags + [0]);
    payload := payload + argumentBytes;
    return Ok(payload);
  }

  /** One round of the loop: the argument's type tag, its data, or its exception. */
  method EncodeArgument(argument: Argument) returns (tag: Result<byte, Error>, data: Bytes)
    ensures tag == Tag(argument)
    ensures tag.Ok? ==> data == ArgumentBytes(argument)
  {
    match argument {
      case Bool(flag) => return Ok(if flag then TAG_TRUE else TAG_FALSE), [];
      case Int(v) =>
        if !IsInt32(v) {
          return Err(StructError), [];
        }
        return Ok(TAG_INT), PackInt(v);
      case Float(word) => return Ok(TAG_FLOAT), word;
      case Text(text) => return Ok(TAG_STRING), Pad4(text + [0]);
      case Other => return Err(TypeError), [];
    }
  }

  lemma {:induction false} PayloadAppend(arguments: seq<Argument>, last: Argument)
    requires Encodable(arguments)
    ensures Tag(last).Ok? ==>
              && Encodable(arguments + [last])
              && Tags(arguments + [last]) == Tags(arguments) + [Tag(last).value]
              && Payload(arguments + [last]) == Payload(arguments) + ArgumentBytes(last)
  {
    hide ArgumentBytes, Tag;
    if Tag(last).Ok? && arguments != [] {
      PayloadAppend(arguments[1..], last);
      assert (arguments + [last])[1..] == arguments[1..] + [last];
    }
  }

  method DecodeMessage(data: Bytes) returns (r: Result<Message, Error>)
    ensures r == ReadMessage(data)
  {
    if data == [] {
      return Err(ValueError);
    }
    var first := ReadPaddedString(data, 0);
    if first.Err? {
      return Err(first.error);
    }
    var (address, start) := first.value;
    if start >= |data| {
      return Ok(Message(address, []));
    }
    var second := ReadPaddedString(data, start);
    if second.Err? {
      return Err(second.error);
    }
    var (typeTags, offset) := second.value;
    if typeTags == [] || typeTags[0] != COMMA {
      return Ok(Message(address, []));
    }
    var arguments := DecodeArguments(data, typeTags[1..], offset);
    match arguments {
      case Ok(values) => return Ok(Message(address, values));
      case Err(e) => return Err(e);
    }
  }

  /** What is still to be read, put behind what has been read already. */
  ghost function Behind<T>(front: seq<T>, rest: Result<seq<T>, Error>): Result<seq<T>, Error> {
    match rest
    case Ok(values) => Ok(front + values)
    case Err(_) => rest
  }

  lemma BehindNothing<T>(rest: Result<seq<T>, Error>)
    ensures Behind([], rest) == rest
  {
    if rest.Ok? {
      assert [] + rest.value == rest.value;
    }
  }

  lemma BehindCons(front: seq<Argument>, next: Argument, rest: Result<seq<Argument>, Error>)
    ensures Behind(front, Cons(next, rest)) == Behind(front + [next], rest)
  {
    if rest.Ok? {
      assert front + ([next] + rest.value) == front + [next] + rest.value;
    }
  }

  lemma BehindConsMessage(front: seq<Message>, next: Message, rest: Result<seq<Message>, Error>)
    ensures Behind(front, ConsMessage(Ok(next), rest)) == Behind(front + [next], rest)
  {
    if rest.Ok? {
      assert front + ([next] + rest.value) == front + [next] + rest.value;
    }
  }

  method DecodeArguments(data: Bytes, tags: Bytes, start: nat) returns (r: Result<seq<Argument>, Error>)
    ensures r == ReadArguments(data, tags, start)
  {
    var arguments: seq<Argument>, offset: nat := [], start;
    BehindNothing(ReadArguments(data, tags, start));
    for k := 0 to |tags|
      invariant Behind(arguments, ReadArguments(data, tags[k..], offset)) == ReadArguments(data, tags, start)
    {
      var tag := tags[k];
      assert tags[k..][1..] == tags[k + 1..];
      if offset + 4 > |data| && tag != TAG_TRUE && tag != TAG_FALSE {
        assert arguments + [] == arguments;
        return Ok(arguments);
      }
      ghost var front := arguments;
      if tag == TAG_INT {
        arguments := arguments + [Int(UnpackInt(WordAt(data, offset)))];
        offset := offset + 4;
      } else if tag == TAG_FLOAT {
        arguments := arguments + [Float(WordAt(data, offset))];
        offset := offset + 4;
      } else if tag == TAG_STRING {
        var found := ReadPaddedString(data, offset);
        if found.Err? {
          return Err(found.error);
        }
        arguments := arguments + [Text(found.value.0)];
        offset := found.value.1;
      } else if tag == TAG_BLOB {
        var size := UnpackInt(WordAt(data, offset));
        if size < 0 {
          return Err(NegativeBlobSize);
        }
        var blobEnd := offset + 4 + size;
        offset := (blobEnd + 3) / 4 * 4;
      } else if tag == TAG_TRUE {
        arguments := arguments + [Bool(true)];
      } else if tag == TAG_FALSE {
        arguments := arguments + [Bool(false)];
      } else {
        return Err(ValueError);
      }
      if tag != TAG_BLOB {
        BehindCons(front, arguments[|front|], ReadArguments(data, tags[k + 1..], offset));
      }
    }
    assert arguments + [] == arguments;
    return Ok(arguments);
  }

  method DecodeBundle(data: Bytes) returns (r: Result<seq<Message>, Error>)
    ensures r == if |data| < 16 then Err(ValueError) else ReadElements(data, 16)
  {
    hide ReadMessage, UnpackInt;
    if |data| < 16 {
      return Err(ValueError);
    }
    var messages: seq<Message>, offset: nat := [], 16;
    BehindNothing(ReadElements(data, 16));
    while offset < |data|
      invariant Behind(messages, ReadElements(data, offset)) == ReadElements(data, 16)
      decreases |data| - offset
    {
      if offset + 4 > |data| {
        break;
      }
      var size := UnpackInt(WordAt(data, offset));
      if size <= 0 || offset + 4 + size > |data| {
        break;
      }
      var chunk := data[offset + 4..offset + 4 + size];
      var message := DecodeMessage(chunk);
      if message.Err? {
        return Err(message.error);
      }
      ghost var rest := ReadElements(data, offset + 4 + size);
      assert ReadElements(data, offset) == ConsMessage(message, rest);
      BehindConsMessage(messages, message.value, rest);
      messages := messages + [message.value];
      offset := offset + 4 + size;
    }
    assert messages + [] == messages;
    return Ok(messages);
  }

  method DecodeMessages(data: Bytes) returns (r: Result<seq<Message>, Error>)
    ensures r == ReadPacket(data)
  {
    if BUNDLE_TAG <= data {
      r := DecodeBundle(data);
    } else {
      var message := DecodeMessage(data);
      r := ConsMessage(message, Ok([]));
    }
  }
}
