/**
 * The first codec of the project (message.h, message.cpp at the top of the
 * repository): six message types, the type written as one decimal digit,
 * then ':' and the payload.  Parsing reads the digit at position 0 and takes
 * the payload from position 2, without looking at position 1.
 */
module LegacyCodec {
  import opened Basics
  import opened Text

  /** The `MessageType` enumeration of message.h with its ordinals. */
  datatype LegacyType = InvalidMessage | UploadCommand | DownloadCommand | DataMessage | EndCommand | Ok

  function Ordinal(t: LegacyType): (n: nat)
    ensures n <= 5
  {
    match t
    case InvalidMessage => 0
    case UploadCommand => 1
    case DownloadCommand => 2
    case DataMessage => 3
    case EndCommand => 4
    case Ok => 5
  }

  /** A message; the constructors are the static factories of the C++ class. */
  datatype LegacyMessage =
    | InvalidMessage
    | UploadCommand(filename: string)
    | DownloadCommand(filename: string)
    | DataMessage(data: string)
    | EndCommand
    | Ok
  {
    function Type(): LegacyType {
      match this
      case InvalidMessage => LegacyType.InvalidMessage
      case UploadCommand(_) => LegacyType.UploadCommand
      case DownloadCommand(_) => LegacyType.DownloadCommand
      case DataMessage(_) => LegacyType.DataMessage
      case EndCommand => LegacyType.EndCommand
      case Ok => LegacyType.Ok
    }
  }

  /** `std::out_of_range`, thrown by `substr(2)` on a buffer shorter than two characters. */
  datatype ParseError = OutOfRange

  /**
   * The integer the header character stands for: its digit value, and 0
   * (what `atoi` gives when no digit is read) for any other character.
   */
  function HeaderValue(c: char): (n: nat)
    ensures IsDigit(c) ==> n == DigitValue(c)
    ensures !IsDigit(c) ==> n == 0
  {
    if IsDigit(c) then DigitValue(c) else 0
  }

  /** `Message::Parse` once the buffer has been copied into a `std::string`. */
  function ParseFrame(buffer: string): (r: Result<LegacyMessage, ParseError>)
    ensures r.Failure? <==> |buffer| < 2
    ensures r.Success? && (r.value.UploadCommand? || r.value.DownloadCommand?) ==>
              r.value.filename == buffer[2..] && r.value.filename != []
    ensures r.Success? && r.value.DataMessage? ==> r.value.data == buffer[2..]
  {
    if |buffer| < 2 then Failure(OutOfRange)
    else
      var data := buffer[2..];
      match HeaderValue(buffer[0])
      case 5 => Success(LegacyMessage.Ok)
      case 4 => Success(LegacyMessage.EndCommand)
      case 3 => Success(LegacyMessage.DataMessage(data))
      case 1 => Success(if data == [] then LegacyMessage.InvalidMessage else LegacyMessage.UploadCommand(data))
      case 2 => Success(if data == [] then LegacyMessage.InvalidMessage else LegacyMessage.DownloadCommand(data))
      case _ => Success(LegacyMessage.InvalidMessage)
  }

  /**
   * `Message::Parse(char *)`: the copy into a `std::string` ends the buffer
   * at its first NUL, so a NUL at position 0 or 1 leaves too little to parse
   * and no payload character after a NUL is seen.
   */
  function Parse(buffer: string): (r: Result<LegacyMessage, ParseError>)
    ensures r.Failure? <==> |buffer| < 2 || buffer[0] == '\0' || buffer[1] == '\0'
    ensures r.Success? && (r.value.UploadCommand? || r.value.DownloadCommand?) ==>
              r.value.filename != [] && '\0' !in r.value.filename && r.value.filename <= buffer[2..]
    ensures r.Success? && r.value.DataMessage? ==> '\0' !in r.value.data && r.value.data <= buffer[2..]
  {
    ParseFrame(CString(buffer))
  }

  /** The frame `Message::send` writes: "<type>:" and then the filename, the data or nothing. */
  function Frame(m: LegacyMessage): (frame: string)
    ensures |frame| >= 2 && frame[1] == ':'
    ensures IsDigit(frame[0]) && DigitValue(frame[0]) == Ordinal(m.Type())
  {
    var payload :=
      match m
      case UploadCommand(filename) => filename
      case DownloadCommand(filename) => filename
      case DataMessage(data) => data
      case _ => "";
    IntToString(Ordinal(m.Type())) + ":" + payload
  }

  /** The single-digit header of a `send` frame is exactly the ordinal's one character. */
  lemma SingleDigitHeader(t: LegacyType)
    ensures IntToString(Ordinal(t)) == [DigitChar(Ordinal(t))]
  {
  }

  /**
   * Round trip: since every ordinal is a single digit, parsing the frame
   * `send` writes gives back the message, except for an upload or download
   * command with an empty filename, which parses to `InvalidMessage`.
   */
  lemma RoundTrip(m: LegacyMessage)
    requires (m.UploadCommand? || m.DownloadCommand?) ==> m.filename != [] && '\0' !in m.filename
    requires m.DataMessage? ==> '\0' !in m.data
    ensures Parse(Frame(m)) == Success(m)
  {
    var frame := Frame(m);
    assert CString(frame) == frame by {
      SingleDigitHeader(m.Type());
      assert frame == [DigitChar(Ordinal(m.Type()))] + ":" + frame[2..];
      CStringStopsAtNul(frame, "");
    }
    assert ParseFrame(frame) == Success(m) by {
      SingleDigitHeader(m.Type());
      assert HeaderValue(frame[0]) == Ordinal(m.Type());
    }
  }

  /** An upload whose filename holds a NUL arrives with the filename cut there. */
  lemma UploadFilenameStopsAtNul(name: string, rest: string)
    requires name != [] && '\0' !in name
    ensures Parse(Frame(LegacyMessage.UploadCommand(name + "\0" + rest))) ==
            Success(LegacyMessage.UploadCommand(name))
  {
    var short := Frame(LegacyMessage.UploadCommand(name));
    SingleDigitHeader(LegacyType.UploadCommand);
    assert Frame(LegacyMessage.UploadCommand(name + "\0" + rest)) == short + "\0" + rest;
    CStringStopsAtNul(short, rest);
    RoundTrip(LegacyMessage.UploadCommand(name));
  }

  /** An upload or download command with an empty filename comes back as `InvalidMessage`. */
  lemma EmptyFilenameIsInvalid(m: LegacyMessage)
    requires (m.UploadCommand? || m.DownloadCommand?) && m.filename == []
    ensures Parse(Frame(m)) == Success(LegacyMessage.InvalidMessage)
  {
    SingleDigitHeader(m.Type());
    CStringStopsAtNul(Frame(m), "");
  }

  /**
   * Only the character at position 0 and the text from position 2 matter:
   * two buffers that agree there parse alike, whatever sits at position 1.
   */
  lemma ParseIgnoresSeparator(b1: string, b2: string)
    requires |b1| >= 2 && |b2| >= 2 && b1[1] != '\0' && b2[1] != '\0'
    requires b1[0] == b2[0] && b1[2..] == b2[2..]
    ensures Parse(b1) == Parse(b2)
  {
    if b1[0] != '\0' {
      assert b1 == b1[..2] + b1[2..] && b2 == b2[..2] + b2[2..];
      CStringOfConcat(b1[..2], b1[2..]);
      CStringOfConcat(b2[..2], b2[2..]);
    }
  }

  /** A header character that is not the digit of a type with a case of its own gives `InvalidMessage`. */
  lemma UnknownTypeIsInvalid(buffer: string)
    requires |buffer| >= 2 && buffer[0] != '\0' && buffer[1] != '\0'
    requires HeaderValue(buffer[0]) == 0 || HeaderValue(buffer[0]) > 5
    ensures Parse(buffer) == Success(LegacyMessage.InvalidMessage)
  {
  }
}
