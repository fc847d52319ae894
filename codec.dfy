/**
 * The text frame codec of src/libs/message.cpp: a `Message` travels as the
 * frame "<decimal type ordinal>:<payload>", with a payload layout that
 * depends on the type.  `Parse` and `ToPacket` are the two directions.
 *
 * Each C++ `Message` also carries the socket it arrived on and a
 * `timestamp` taken from the clock when it was built; neither is part of
 * the frame, so neither is part of this datatype (the one exception is
 * `FileUpdate`, whose timestamp is on the wire).
 */
module Codec {
  import opened Basics
  import opened Text

  /** The `MessageType` enumeration with its ordinals. */
  datatype MessageType =
    | Empty | InvalidMessage | Login | UploadCommand | FileUpdate | DownloadCommand
    | DeleteCommand | EndCommand | ListServerCommand | SubscribeUpdates | FileInfo
    | DataMessage | Response | Start

  function Ordinal(t: MessageType): (n: nat)
    ensures n <= 13
  {
    match t
    case Empty => 0
    case InvalidMessage => 1
    case Login => 2
    case UploadCommand => 3
    case FileUpdate => 4
    case DownloadCommand => 5
    case DeleteCommand => 6
    case EndCommand => 7
    case ListServerCommand => 8
    case SubscribeUpdates => 9
    case FileInfo => 10
    case DataMessage => 11
    case Response => 12
    case Start => 13
  }

  /** The cast `(MessageType) n` for the values that name an enumerator. */
  function TypeOfOrdinal(n: int): (t: Option<MessageType>)
    ensures t.Some? <==> 0 <= n <= 13
    ensures t.Some? ==> Ordinal(t.value) == n
  {
    match n
    case 0 => Some(MessageType.Empty)
    case 1 => Some(MessageType.InvalidMessage)
    case 2 => Some(MessageType.Login)
    case 3 => Some(MessageType.UploadCommand)
    case 4 => Some(MessageType.FileUpdate)
    case 5 => Some(MessageType.DownloadCommand)
    case 6 => Some(MessageType.DeleteCommand)
    case 7 => Some(MessageType.EndCommand)
    case 8 => Some(MessageType.ListServerCommand)
    case 9 => Some(MessageType.SubscribeUpdates)
    case 10 => Some(MessageType.FileInfo)
    case 11 => Some(MessageType.DataMessage)
    case 12 => Some(MessageType.Response)
    case 13 => Some(MessageType.Start)
    case _ => None
  }

  /**
   * The `ResponseType` ordinals.  A response code is kept as an `int`:
   * `Parse` casts whatever `atoi` reads into the enumeration, so a frame can
   * carry a code that names no enumerator.
   */
  const ResponseInvalid: int := 0
  const ResponseOk: int := 1
  const ResponseFileNotFound: int := 2

  /** A message; the constructors are the static factories of the C++ class. */
  datatype Message =
    | Empty
    | InvalidMessage
    | Login(username: string)
    | UploadCommand(filename: string)
    | FileUpdate(filename: string, timestamp: int)
    | DownloadCommand(filename: string)
    | DeleteCommand(filename: string)
    | EndCommand
    | ListServerCommand
    | SubscribeUpdates
    | FileInfo(filename: string, mtime: int, atime: int, ctime: int)
    | DataMessage(data: string)
    | Response(responseType: int)
    | Start
  {
    function Type(): MessageType {
      match this
      case Empty => MessageType.Empty
      case InvalidMessage => MessageType.InvalidMessage
      case Login(_) => MessageType.Login
      case UploadCommand(_) => MessageType.UploadCommand
      case FileUpdate(_, _) => MessageType.FileUpdate
      case DownloadCommand(_) => MessageType.DownloadCommand
      case DeleteCommand(_) => MessageType.DeleteCommand
      case EndCommand => MessageType.EndCommand
      case ListServerCommand => MessageType.ListServerCommand
      case SubscribeUpdates => MessageType.SubscribeUpdates
      case FileInfo(_, _, _, _) => MessageType.FileInfo
      case DataMessage(_) => MessageType.DataMessage
      case Response(_) => MessageType.Response
      case Start => MessageType.Start
    }
  }

  /** `Message::isOk`. */
  predicate IsOk(m: Message) {
    m.Response? && m.responseType == ResponseOk
  }

  /** The width of a timestamp written with the format "YYYY-MM-DD HH:mm:ss". */
  const TimestampWidth: nat := 19

  /** Each timestamp field takes its width plus one separator character. */
  const TimestampSpacer: nat := TimestampWidth + 1

  /** `std::out_of_range`, thrown by `substr` when the start lies past the end. */
  datatype ParseError = OutOfRange

  /**
   * The header is the text before the first ':' and the payload the text
   * after it; a frame without ':' is all header, with an empty payload.
   */
  function SplitFrame(frame: string): (parts: (string, string))
    ensures ':' !in parts.0
    ensures ':' in frame ==> frame == parts.0 + ":" + parts.1
    ensures ':' !in frame ==> parts.0 == frame && parts.1 == ""
  {
    var separator := IndexOf(frame, ':');
    if separator == -1 then (frame, "")
    else
      var header, payload := frame[..separator], frame[separator + 1..];
      assert frame == header + [frame[separator]] + payload;
      (header, payload)
  }

  /** The `k`-th fixed-width timestamp field of a payload long enough to hold it. */
  function TimestampField(data: string, k: nat): string
    requires k * TimestampSpacer + TimestampWidth <= |data|
  {
    data[k * TimestampSpacer..k * TimestampSpacer + TimestampWidth]
  }

  /**
   * The case analysis of `Message::Parse` once the header has been read as
   * the type `t` (`None` for a value that names no enumerator) and `data` is
   * the payload.
   */
  function Decode(t: Option<MessageType>, data: string, toTimeT: string -> int): (r: Result<Message, ParseError>)
    ensures r.Success? ==> !r.value.Empty?
    ensures r.Failure? <==>
              (t == Some(MessageType.FileUpdate) && |data| < TimestampSpacer) ||
              (t == Some(MessageType.FileInfo) && |data| < 3 * TimestampSpacer)
    ensures r.Success? && r.value.FileUpdate? ==>
              TimestampSpacer <= |data| && r.value.filename == data[TimestampSpacer..]
    ensures r.Success? && r.value.FileInfo? ==>
              3 * TimestampSpacer <= |data| && r.value.filename == data[3 * TimestampSpacer..]
  {
    match t
    case Some(FileInfo) =>
      if |data| < 3 * TimestampSpacer then Failure(OutOfRange)
      else
        Success(Message.FileInfo(data[3 * TimestampSpacer..],
                                 toTimeT(TimestampField(data, 0)),
                                 toTimeT(TimestampField(data, 1)),
                                 toTimeT(TimestampField(data, 2))))
    case Some(FileUpdate) =>
      if |data| < TimestampSpacer then Failure(OutOfRange)
      else Success(Message.FileUpdate(data[TimestampSpacer..], toTimeT(TimestampField(data, 0))))
    case Some(Start) => Success(Message.Start)
    case Some(EndCommand) => Success(Message.EndCommand)
    case Some(ListServerCommand) => Success(Message.ListServerCommand)
    case Some(SubscribeUpdates) => Success(Message.SubscribeUpdates)
    case Some(DataMessage) => Success(Message.DataMessage(data))
    case Some(Login) => Success(Message.Login(data))
    case Some(Response) => Success(Message.Response(Atoi(data)))
    case Some(UploadCommand) => Success(if data == [] then Message.InvalidMessage else Message.UploadCommand(data))
    case Some(DownloadCommand) => Success(if data == [] then Message.InvalidMessage else Message.DownloadCommand(data))
    case Some(DeleteCommand) => Success(if data == [] then Message.InvalidMessage else Message.DeleteCommand(data))
    case Some(Empty) => Success(Message.InvalidMessage)
    case Some(InvalidMessage) => Success(Message.InvalidMessage)
    case None => Success(Message.InvalidMessage)
  }

  /**
   * `Message::Parse` once the buffer has been copied into a `std::string`:
   * the empty frame is the `Empty` message; otherwise the header is read
   * with `atoi` and cast to the type.  `toTimeT` is the conversion from a
   * formatted timestamp to `time_t`, which depends on the local time zone
   * and is not modelled.
   */
  function ParseFrame(frame: string, toTimeT: string -> int): (r: Result<Message, ParseError>)
    ensures frame == [] <==> r == Success(Message.Empty)
    ensures r.Failure? <==>
              frame != [] &&
              ((Atoi(SplitFrame(frame).0) == Ordinal(MessageType.FileUpdate) && |SplitFrame(frame).1| < TimestampSpacer) ||
               (Atoi(SplitFrame(frame).0) == Ordinal(MessageType.FileInfo) && |SplitFrame(frame).1| < 3 * TimestampSpacer))
  {
    if frame == [] then Success(Message.Empty)
    else
      var code := Atoi(SplitFrame(frame).0);
      assert TypeOfOrdinal(code) == Some(MessageType.FileUpdate) <==> code == Ordinal(MessageType.FileUpdate);
      assert TypeOfOrdinal(code) == Some(MessageType.FileInfo) <==> code == Ordinal(MessageType.FileInfo);
      Decode(TypeOfOrdinal(code), SplitFrame(frame).1, toTimeT)
  }

  /**
   * `Message::Parse(char *)`: the buffer is copied into a `std::string`,
   * which ends the frame at its first NUL, and that frame is parsed.
   */
  function Parse(buffer: string, toTimeT: string -> int): (r: Result<Message, ParseError>)
    ensures (buffer == [] || buffer[0] == '\0') <==> r == Success(Message.Empty)
  {
    ParseFrame(CString(buffer), toTimeT)
  }

  /** Nothing after the first NUL of a buffer reaches the parser. */
  lemma ParseStopsAtNul(prefix: string, rest: string, toTimeT: string -> int)
    requires '\0' !in prefix
    ensures Parse(prefix + "\0" + rest, toTimeT) == Parse(prefix, toTimeT)
    ensures Parse(prefix, toTimeT) == ParseFrame(prefix, toTimeT)
  {
    CStringStopsAtNul(prefix, rest);
  }

  /**
   * The payload `toPacket` writes after "<type>:".  `timeText` is
   * `toString(time_t)`, which formats in the local time zone and is not modelled.
   */
  function Payload(m: Message, timeText: int -> string): string {
    match m
    case Login(username) => username
    case UploadCommand(filename) => filename
    case DownloadCommand(filename) => filename
    case DeleteCommand(filename) => filename
    case Response(code) => IntToString(code)
    case DataMessage(data) => data
    case FileUpdate(filename, timestamp) => timeText(timestamp) + ":" + filename
    case FileInfo(filename, mtime, atime, ctime) =>
      timeText(mtime) + ":" + timeText(atime) + ":" + timeText(ctime) + ":" + filename
    case _ => ""
  }

  /** `Message::toPacket`. */
  function ToPacket(m: Message, timeText: int -> string): (frame: string)
    ensures frame == [] <==> m.Empty?
    ensures !m.Empty? ==> SplitFrame(frame) == (IntToString(Ordinal(m.Type())), Payload(m, timeText))
  {
    if m.Empty? then ""
    else
      var header := IntToString(Ordinal(m.Type()));
      var frame := header + ":" + Payload(m, timeText);
      SplitAfterHeader(header, Payload(m, timeText));
      frame
  }

  /** The kinds whose payload is carried verbatim (no timestamp fields). */
  predicate VerbatimKind(m: Message) {
    !m.Empty? && !m.FileUpdate? && !m.FileInfo?
  }

  /** The text fields of a message hold no NUL, so its frame survives the `char *` copy. */
  predicate NulFree(m: Message) {
    (m.Login? ==> '\0' !in m.username) &&
    (m.UploadCommand? || m.FileUpdate? || m.DownloadCommand? || m.DeleteCommand? || m.FileInfo? ==>
       '\0' !in m.filename) &&
    (m.DataMessage? ==> '\0' !in m.data)
  }

  /** The kinds that `Parse` rebuilds exactly. */
  predicate RoundTrips(m: Message) {
    VerbatimKind(m) && NulFree(m) &&
    ((m.UploadCommand? || m.DownloadCommand? || m.DeleteCommand?) ==> m.filename != [])
  }

  /**
   * A header that `atoi` reads as the ordinal `n` selects the case for `n`;
   * in particular the ordinal a frame was written with is read back.
   */
  lemma HeaderOrdinal(t: MessageType)
    ensures Atoi(IntToString(Ordinal(t))) == Ordinal(t)
    ensures TypeOfOrdinal(Atoi(IntToString(Ordinal(t)))) == Some(t)
  {
    AtoiOfIntToString(Ordinal(t), "");
    assert IntToString(Ordinal(t)) + "" == IntToString(Ordinal(t));
  }

  /**
   * Round trip: every message except `Empty`, the timestamped kinds, a
   * command with an empty filename and a message with a NUL in its text
   * parses back to itself.  Payloads may contain ':' (usernames, data
   * lines), and a response code of any value is recovered.
   */
  lemma RoundTrip(m: Message, timeText: int -> string, toTimeT: string -> int)
    requires RoundTrips(m)
    ensures Parse(ToPacket(m, timeText), toTimeT) == Success(m)
  {
    var frame, data := ToPacket(m, timeText), Payload(m, timeText);
    assert '\0' !in data;
    NulFreePacket(m, timeText, toTimeT);
    assert ParseFrame(frame, toTimeT) == Decode(Some(m.Type()), data, toTimeT) by {
      HeaderOrdinal(m.Type());
      assert SplitFrame(frame) == (IntToString(Ordinal(m.Type())), data);
    }
    DecodesPayload(m, timeText, toTimeT);
  }

  /** A frame written from a NUL-free payload survives the `char *` copy whole. */
  lemma NulFreePacket(m: Message, timeText: int -> string, toTimeT: string -> int)
    requires '\0' !in Payload(m, timeText)
    ensures '\0' !in ToPacket(m, timeText)
    ensures Parse(ToPacket(m, timeText), toTimeT) == ParseFrame(ToPacket(m, timeText), toTimeT)
  {
    if !m.Empty? {
      assert ToPacket(m, timeText) == IntToString(Ordinal(m.Type())) + ":" + Payload(m, timeText);
    }
    CStringStopsAtNul(ToPacket(m, timeText), "");
  }

  /** The case `Parse` selects for a message's type rebuilds the message from its payload. */
  lemma DecodesPayload(m: Message, timeText: int -> string, toTimeT: string -> int)
    requires RoundTrips(m)
    ensures Decode(Some(m.Type()), Payload(m, timeText), toTimeT) == Success(m)
  {
    if m.Response? {
      AtoiOfIntToString(m.responseType, "");
      assert IntToString(m.responseType) + "" == IntToString(m.responseType);
    } else if m.UploadCommand? || m.DownloadCommand? || m.DeleteCommand? {
      DecodesCommand(m, timeText, toTimeT);
    } else {
      DecodesOther(m, timeText, toTimeT);
    }
  }

  lemma DecodesCommand(m: Message, timeText: int -> string, toTimeT: string -> int)
    requires (m.UploadCommand? || m.DownloadCommand? || m.DeleteCommand?) && m.filename != []
    ensures Decode(Some(m.Type()), Payload(m, timeText), toTimeT) == Success(m)
  {
    assert Payload(m, timeText) == m.filename;
  }

  lemma DecodesOther(m: Message, timeText: int -> string, toTimeT: string -> int)
    requires VerbatimKind(m) && !m.Response? && !m.UploadCommand? && !m.DownloadCommand? && !m.DeleteCommand?
    ensures Decode(Some(m.Type()), Payload(m, timeText), toTimeT) == Success(m)
  {
  }

  /**
   * A command whose filename holds a NUL comes back with the filename cut
   * there: the upload of "a\0b" arrives as the upload of "a".
   */
  lemma CommandFilenameStopsAtNul(m: Message, name: string, rest: string,
                                   timeText: int -> string, toTimeT: string -> int)
    requires m.UploadCommand? || m.DownloadCommand? || m.DeleteCommand?
    requires m.filename == name + "\0" + rest && name != [] && '\0' !in name
    ensures Parse(ToPacket(m, timeText), toTimeT) ==
            Success(if m.UploadCommand? then Message.UploadCommand(name)
                    else if m.DownloadCommand? then Message.DownloadCommand(name)
                    else Message.DeleteCommand(name))
  {
    var cut := if m.UploadCommand? then Message.UploadCommand(name)
               else if m.DownloadCommand? then Message.DownloadCommand(name)
               else Message.DeleteCommand(name);
    PacketCutAtNul(m, name, rest, timeText, toTimeT);
    assert ToPacket(cut, timeText) == IntToString(Ordinal(m.Type())) + ":" + name by {
      CommandPacket(cut, timeText);
    }
    RoundTrip(cut, timeText, toTimeT);
  }

  /** The frame of a command whose filename holds a NUL parses as the frame of the name before it. */
  lemma PacketCutAtNul(m: Message, name: string, rest: string, timeText: int -> string, toTimeT: string -> int)
    requires m.UploadCommand? || m.DownloadCommand? || m.DeleteCommand?
    requires m.filename == name + "\0" + rest && '\0' !in name
    ensures Parse(ToPacket(m, timeText), toTimeT) == Parse(IntToString(Ordinal(m.Type())) + ":" + name, toTimeT)
  {
    var short := IntToString(Ordinal(m.Type())) + ":" + name;
    CommandPacket(m, timeText);
    assert ToPacket(m, timeText) == short + "\0" + rest;
    ParseStopsAtNul(short, rest, toTimeT);
  }

  /** A command's frame is its header, ':' and the filename. */
  lemma CommandPacket(m: Message, timeText: int -> string)
    requires m.UploadCommand? || m.DownloadCommand? || m.DeleteCommand?
    ensures ToPacket(m, timeText) == IntToString(Ordinal(m.Type())) + ":" + m.filename
  {
    assert Payload(m, timeText) == m.filename;
  }

  /** The empty frame and the `Empty` message correspond in both directions. */
  lemma EmptyFrameIsEmptyMessage(m: Message, timeText: int -> string, toTimeT: string -> int)
    ensures ToPacket(m, timeText) == [] <==> m == Message.Empty
    ensures Parse([], toTimeT) == Success(Message.Empty)
  {
  }

  /**
   * A `FileUpdate` frame whose timestamp text is exactly 19 characters wide
   * carries its filename from payload offset 20: the filename comes back
   * unchanged, whatever characters it holds, and the timestamp comes back as
   * the time conversion of the text written for it.
   */
  lemma FileUpdateRoundTrip(m: Message, timeText: int -> string, toTimeT: string -> int)
    requires m.FileUpdate? && |timeText(m.timestamp)| == TimestampWidth
    requires '\0' !in m.filename && '\0' !in timeText(m.timestamp)
    ensures Parse(ToPacket(m, timeText), toTimeT) ==
            Success(Message.FileUpdate(m.filename, toTimeT(timeText(m.timestamp))))
  {
    var data := Payload(m, timeText);
    assert '\0' !in data by {
      assert data == timeText(m.timestamp) + ":" + m.filename;
    }
    NulFreePacket(m, timeText, toTimeT);
    assert ParseFrame(ToPacket(m, timeText), toTimeT) ==
           Success(Message.FileUpdate(m.filename, toTimeT(timeText(m.timestamp)))) by {
      HeaderOrdinal(m.Type());
      assert data[TimestampSpacer..] == m.filename;
      assert TimestampField(data, 0) == timeText(m.timestamp);
    }
  }

  /** The same for `FileInfo`, whose filename starts at payload offset 60. */
  lemma FileInfoRoundTrip(m: Message, timeText: int -> string, toTimeT: string -> int)
    requires m.FileInfo?
    requires |timeText(m.mtime)| == TimestampWidth && |timeText(m.atime)| == TimestampWidth
    requires |timeText(m.ctime)| == TimestampWidth
    requires '\0' !in m.filename && '\0' !in timeText(m.mtime)
    requires '\0' !in timeText(m.atime) && '\0' !in timeText(m.ctime)
    ensures Parse(ToPacket(m, timeText), toTimeT) ==
            Success(Message.FileInfo(m.filename, toTimeT(timeText(m.mtime)),
                                     toTimeT(timeText(m.atime)), toTimeT(timeText(m.ctime))))
  {
    assert '\0' !in Payload(m, timeText) by {
      FileInfoPayload(m, timeText);
    }
    NulFreePacket(m, timeText, toTimeT);
    FileInfoDecodes(m, timeText, toTimeT);
  }

  lemma FileInfoPayload(m: Message, timeText: int -> string)
    requires m.FileInfo?
    ensures Payload(m, timeText) ==
            timeText(m.mtime) + ":" + timeText(m.atime) + ":" + timeText(m.ctime) + ":" + m.filename
  {
  }

  lemma FileInfoDecodes(m: Message, timeText: int -> string, toTimeT: string -> int)
    requires m.FileInfo?
    requires |timeText(m.mtime)| == TimestampWidth && |timeText(m.atime)| == TimestampWidth
    requires |timeText(m.ctime)| == TimestampWidth
    ensures ParseFrame(ToPacket(m, timeText), toTimeT) ==
            Success(Message.FileInfo(m.filename, toTimeT(timeText(m.mtime)),
                                     toTimeT(timeText(m.atime)), toTimeT(timeText(m.ctime))))
  {
    HeaderOrdinal(m.Type());
    var data := Payload(m, timeText);
    FileInfoPayload(m, timeText);
    assert data[3 * TimestampSpacer..] == m.filename;
    assert TimestampField(data, 0) == timeText(m.mtime);
    assert TimestampField(data, 1) == timeText(m.atime);
    assert TimestampField(data, 2) == timeText(m.ctime);
  }

  /**
   * A non-empty frame whose header reads as a value with no case of its own
   * (including 0, `Empty`, and 1, `InvalidMessage`) parses to `InvalidMessage`
   * rather than failing.
   */
  lemma UnknownHeaderIsInvalid(buffer: string, toTimeT: string -> int)
    requires CString(buffer) != []
    requires var code := Atoi(SplitFrame(CString(buffer)).0); code < 2 || code > 13
    ensures Parse(buffer, toTimeT) == Success(Message.InvalidMessage)
  {
  }

  /** Upload, download and delete frames with an empty filename parse to `InvalidMessage`. */
  lemma EmptyFilenameCommandIsInvalid(t: MessageType, toTimeT: string -> int)
    requires t == MessageType.UploadCommand || t == MessageType.DownloadCommand || t == MessageType.DeleteCommand
    ensures Parse(IntToString(Ordinal(t)) + ":", toTimeT) == Success(Message.InvalidMessage)
  {
    var frame := IntToString(Ordinal(t)) + ":";
    CStringStopsAtNul(frame, "");
    HeaderOrdinal(t);
    assert frame == IntToString(Ordinal(t)) + ":" + "";
    SplitAfterHeader(IntToString(Ordinal(t)), "");
  }

  /** A header without ':' followed by ':' splits off exactly, whatever the payload holds. */
  lemma SplitAfterHeader(header: string, payload: string)
    requires ':' !in header
    ensures SplitFrame(header + ":" + payload) == (header, payload)
  {
    var frame := header + ":" + payload;
    assert frame[..|header|] == header && frame[|header|] == ':';
    var r := IndexOf(frame, ':');
    assert forall i :: 0 <= i < r ==> frame[..r][i] == frame[i];
    assert r <= |header|;
    assert frame[..r] == header[..r];
    assert r == |header|;
    assert frame[r + 1..] == payload;
  }

  /**
   * `isOk` holds of a parsed frame exactly when its header reads as the
   * `Response` ordinal and its payload reads as the `Ok` code.
   */
  lemma IsOkParsed(buffer: string, toTimeT: string -> int)
    requires CString(buffer) != []
    ensures var frame := CString(buffer);
            Parse(buffer, toTimeT).Success? && IsOk(Parse(buffer, toTimeT).value) <==>
            Atoi(SplitFrame(frame).0) == Ordinal(MessageType.Response) && Atoi(SplitFrame(frame).1) == ResponseOk
  {
    var frame := CString(buffer);
    var t := TypeOfOrdinal(Atoi(SplitFrame(frame).0));
    assert Parse(buffer, toTimeT) == Decode(t, SplitFrame(frame).1, toTimeT);
    DecodesOk(t, SplitFrame(frame).1, toTimeT);
    assert t == Some(MessageType.Response) <==> Atoi(SplitFrame(frame).0) == Ordinal(MessageType.Response);
  }

  /** Only the `Response` case decodes to a response, carrying what `atoi` reads from the payload. */
  lemma DecodesOk(t: Option<MessageType>, data: string, toTimeT: string -> int)
    ensures Decode(t, data, toTimeT).Success? && IsOk(Decode(t, data, toTimeT).value) <==>
            t == Some(MessageType.Response) && Atoi(data) == ResponseOk
  {
  }

}
