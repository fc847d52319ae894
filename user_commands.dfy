/**
 * The client's command line (src/libs/client/userCommands.cpp, with an
 * earlier copy in src/client.cpp): `Command::Parse` and the argument
 * checks and message exchanges of the upload, download and delete commands.
 */
module UserCommands {
  import opened Basics
  import opened Text
  import Codec
  import PathHelpers

  datatype CommandType = InvalidCommand | Upload | Download | Delete | ListServer | ListClient | GetSyncDir | Exit

  datatype Command = Command(commandType: CommandType, parameter: string)

  /** The text after the first space, or the whole input when there is none. */
  function Parameter(input: string): (parameter: string)
    ensures ' ' !in input ==> parameter == input
    ensures ' ' in input ==>
              |parameter| < |input| &&
              var k := |input| - |parameter| - 1;
              input == input[..k] + " " + parameter && ' ' !in input[..k]
  {
    var firstSpace := IndexOf(input, ' ');
    var parameter := input[firstSpace + 1..];
    assert firstSpace != -1 ==> input == input[..firstSpace] + [input[firstSpace]] + parameter;
    parameter
  }

  /** `Command::Parse`: prefix tests in a fixed order; the first that matches decides. */
  function Parse(input: string): (command: Command)
    ensures command.commandType == InvalidCommand ==> command.parameter == input
    ensures command.commandType != InvalidCommand ==> command.parameter == Parameter(input)
  {
    var parameter := Parameter(input);
    if StartsWith(input, "upload") then Command(Upload, parameter)
    else if StartsWith(input, "download") then Command(Download, parameter)
    else if StartsWith(input, "delete") then Command(Delete, parameter)
    else if StartsWith(input, "list_server") then Command(ListServer, parameter)
    else if StartsWith(input, "list_client") then Command(ListClient, parameter)
    else if StartsWith(input, "get_sync_dir") then Command(GetSyncDir, parameter)
    else if StartsWith(input, "exit") then Command(Exit, parameter)
    else Command(InvalidCommand, input)
  }

  /** The command words with their types, in the order they are tried. */
  const CommandTable: seq<(string, CommandType)> := [
    ("upload", Upload), ("download", Download), ("delete", Delete), ("list_server", ListServer),
    ("list_client", ListClient), ("get_sync_dir", GetSyncDir), ("exit", Exit)]

  /** The index of the first table entry whose word starts the input, if any. */
  function FirstMatch(input: string, table: seq<(string, CommandType)>): (r: Option<nat>)
    ensures r.None? <==> forall i :: 0 <= i < |table| ==> !StartsWith(input, table[i].0)
    ensures r.Some? ==>
              r.value < |table| && StartsWith(input, table[r.value].0) &&
              forall j :: 0 <= j < r.value ==> !StartsWith(input, table[j].0)
    decreases |table|
  {
    if table == [] then None
    else if StartsWith(input, table[0].0) then Some(0)
    else
      var rest := FirstMatch(input, table[1..]);
      assert forall i :: 1 <= i < |table| ==> table[i] == table[1..][i - 1];
      if rest.None? then None else Some(rest.value + 1)
  }

  /**
   * `Parse` gives the type of the first command word, in table order, that
   * the input starts with, and `InvalidCommand` when there is none.
   */
  lemma ParseIsFirstMatch(input: string)
    ensures var r := FirstMatch(input, CommandTable);
            Parse(input).commandType == if r.None? then InvalidCommand else CommandTable[r.value].1
  {
    var table := CommandTable;
    var r := FirstMatch(input, table);
    assert table[0].0 == "upload" && table[1].0 == "download" && table[2].0 == "delete";
    assert table[3].0 == "list_server" && table[4].0 == "list_client";
    assert table[5].0 == "get_sync_dir" && table[6].0 == "exit";
    if r.Some? {
      var k := r.value;
      assert k <= 6;
      if k == 0 {
      } else if k == 1 {
        assert !StartsWith(input, table[0].0);
      } else if k == 2 {
        assert !StartsWith(input, table[0].0) && !StartsWith(input, table[1].0);
      } else if k == 3 {
        assert !StartsWith(input, table[0].0) && !StartsWith(input, table[1].0) && !StartsWith(input, table[2].0);
      } else {
        assert !StartsWith(input, table[0].0) && !StartsWith(input, table[1].0) && !StartsWith(input, table[2].0);
        assert !StartsWith(input, table[3].0) && (k > 4 ==> !StartsWith(input, table[4].0));
        assert k > 5 ==> !StartsWith(input, table[5].0);
      }
    } else {
      assert !StartsWith(input, table[0].0) && !StartsWith(input, table[1].0) && !StartsWith(input, table[2].0);
      assert !StartsWith(input, table[3].0) && !StartsWith(input, table[4].0);
      assert !StartsWith(input, table[5].0) && !StartsWith(input, table[6].0);
    }
  }

  /** The parameter of a word, a space and a rest is the rest, whatever spaces it holds. */
  lemma ParameterAfterWord(word: string, rest: string)
    requires ' ' !in word
    ensures Parameter(word + " " + rest) == rest
  {
    var input := word + " " + rest;
    var r := IndexOf(input, ' ');
    assert input[..|word|] == word && input[|word|] == ' ';
    assert r == |word|;
    assert input[r + 1..] == rest;
  }

  /**
   * Matching is by prefix, not by whole word: any word that starts with
   * "upload" (such as "uploads") is an upload of the text after the first space.
   */
  lemma PrefixNotWord(tail: string, rest: string)
    requires ' ' !in tail
    ensures Parse("upload" + tail + " " + rest) == Command(Upload, rest)
  {
    var word := "upload" + tail;
    assert word + " " + rest == "upload" + tail + " " + rest;
    ParameterAfterWord(word, rest);
    assert (word + " " + rest)[..6] == "upload";
  }

  /** A diagnostic the client prints. */
  datatype Diagnostic = MissingPath | CannotOpen(path: string) | InvalidFilename | FileNotFound | Deleted

  /** One visible effect of running a command, in order. */
  datatype Effect =
    | Print(diagnostic: Diagnostic)
    | Send(message: Codec.Message)     // a message to the server (`send`, `Reply`)
    | SendFile(path: string)           // stream a local file to the server
    | ReceiveFile(filename: string)    // stream the server's file into a local file
    | Panic(message: Codec.Message)    // report an unexpected reply

  predicate SendsNothing(effects: seq<Effect>) {
    forall i :: 0 <= i < |effects| ==> !effects[i].Send? && !effects[i].SendFile? && !effects[i].ReceiveFile?
  }

  /**
   * `uploadCommand`.  `opens` says whether the local file could be opened and
   * `reply` is the server's answer to the upload request.
   */
  function UploadCommand(path: string, opens: bool, reply: Codec.Message): (effects: seq<Effect>)
    ensures path == [] ==> effects == [Print(MissingPath)]
    ensures path != [] && !opens ==> effects == [Print(CannotOpen(path))]
    ensures path != [] && opens ==>
              |effects| == 2 && effects[0] == Send(Codec.Message.UploadCommand(PathHelpers.ExtractFilenameFromPath(path))) &&
              (SendFile(path) in effects <==> Codec.IsOk(reply))
  {
    if |path| <= 0 then [Print(MissingPath)]
    else if !opens then [Print(CannotOpen(path))]
    else
      var request := Send(Codec.Message.UploadCommand(PathHelpers.ExtractFilenameFromPath(path)));
      if !Codec.IsOk(reply) then [request, Panic(reply)] else [request, SendFile(path)]
  }

  /** An empty path is refused before any file is opened or any message is sent. */
  lemma EmptyUploadPathSendsNothing(opens: bool, reply: Codec.Message)
    ensures SendsNothing(UploadCommand("", opens, reply))
  {
  }

  /** The upload request names the file only: the directories of the local path stay local. */
  lemma UploadSendsBareFilename(directory: string, filename: string, reply: Codec.Message)
    requires '/' !in filename
    ensures UploadCommand(directory + "/" + filename, true, reply)[0] == Send(Codec.Message.UploadCommand(filename))
  {
    PathHelpers.DirectoryIsDropped(directory, filename);
  }

  /** `downloadCommand`; `reply` is the server's answer to the download request. */
  function DownloadCommand(filename: string, reply: Codec.Message): (effects: seq<Effect>)
    ensures !PathHelpers.IsFilenameValid(filename) ==> effects == [Print(InvalidFilename)] && SendsNothing(effects)
    ensures PathHelpers.IsFilenameValid(filename) ==>
              |effects| == 2 && effects[0] == Send(Codec.Message.DownloadCommand(filename)) &&
              (ReceiveFile(filename) in effects <==> Codec.IsOk(reply))
  {
    if !PathHelpers.IsFilenameValid(filename) then [Print(InvalidFilename)]
    else
      var request := Send(Codec.Message.DownloadCommand(filename));
      if !Codec.IsOk(reply) then [request, Panic(reply)] else [request, ReceiveFile(filename)]
  }

  /** The reply carries the response code `code` (only a `Response` carries one). */
  predicate IsResponse(reply: Codec.Message, code: int) {
    reply.Response? && reply.responseType == code
  }

  /**
   * `deleteCommand`; `reply` answers the delete request and `startReply`
   * answers the `Start` sent after an Ok.
   */
  function DeleteCommand(filename: string, reply: Codec.Message, startReply: Codec.Message): (effects: seq<Effect>)
    ensures !PathHelpers.IsFilenameValid(filename) ==> effects == [Print(InvalidFilename)] && SendsNothing(effects)
    ensures PathHelpers.IsFilenameValid(filename) ==>
              |effects| >= 2 && effects[0] == Send(Codec.Message.DeleteCommand(filename))
    ensures Send(Codec.Message.Start) in effects <==>
              PathHelpers.IsFilenameValid(filename) && IsResponse(reply, Codec.ResponseOk)
    ensures Print(Deleted) in effects <==>
              PathHelpers.IsFilenameValid(filename) && IsResponse(reply, Codec.ResponseOk) &&
              IsResponse(startReply, Codec.ResponseOk)
  {
    if !PathHelpers.IsFilenameValid(filename) then [Print(InvalidFilename)]
    else
      var request := Send(Codec.Message.DeleteCommand(filename));
      if IsResponse(reply, Codec.ResponseFileNotFound) then [request, Print(FileNotFound)]
      else if !IsResponse(reply, Codec.ResponseOk) then [request, Panic(reply)]
      else if !IsResponse(startReply, Codec.ResponseOk) then [request, Send(Codec.Message.Start), Panic(startReply)]
      else [request, Send(Codec.Message.Start), Print(Deleted)]
  }

  /** A FileNotFound answer ends the delete command: `Start` is not sent. */
  lemma FileNotFoundStopsDelete(filename: string, startReply: Codec.Message)
    requires filename != []
    ensures var effects := DeleteCommand(filename, Codec.Message.Response(Codec.ResponseFileNotFound), startReply);
            effects == [Send(Codec.Message.DeleteCommand(filename)), Print(FileNotFound)]
  {
  }
}
