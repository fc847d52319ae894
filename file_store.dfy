/**
 * The server's store of file states (src/libs/fileManager.h): a
 * `UserFiles` object per user maps filenames to states, and a
 * `FilesManager` maps usernames to those objects, creating one on first use.
 */
module FileStore {
  import opened Basics
  import opened ServerFiles

  class UserFiles {
    var fileStatesByFilename: map<string, FileState>

    constructor()
      ensures fileStatesByFilename == map[]
    {
      fileStatesByFilename := map[];
    }

    /** `get`: the stored state, or `FileState::Empty()` for an unknown filename. */
    function Get(filename: string): (state: FileState)
      reads this
      ensures filename !in fileStatesByFilename ==> state == Empty()
      ensures filename in fileStatesByFilename ==> state == fileStatesByFilename[filename]
    {
      if filename !in fileStatesByFilename then Empty() else fileStatesByFilename[filename]
    }

    /** `update`: stores the state under the name; every other entry is kept. */
    method Update(name: string, state: FileState)
      modifies this
      ensures fileStatesByFilename == old(fileStatesByFilename)[name := state]
      ensures forall other :: other != name ==> Get(other) == old(Get(other))
    {
      fileStatesByFilename := fileStatesByFilename[name := state];
    }
  }

  /** The state of a user's file as `UserFiles::get` reports it, read off a store of plain maps. */
  function LookupOrEmpty(store: map<string, map<string, FileState>>, username: string, filename: string): (state: FileState)
    ensures username !in store || filename !in store[username] ==> state == Empty()
  {
    if username in store && filename in store[username] then store[username][filename] else Empty()
  }

  class FilesManager {
    var userFilesByUsername: map<string, UserFiles>

    constructor()
      ensures userFilesByUsername == map[] && Valid()
    {
      userFilesByUsername := map[];
    }

    /** Different users never share a `UserFiles` object. */
    ghost predicate Valid()
      reads this
    {
      forall u, v :: u in userFilesByUsername && v in userFilesByUsername && u != v ==>
        userFilesByUsername[u] != userFilesByUsername[v]
    }

    /** The whole store as plain maps: username to filename to state. */
    ghost function Store(): map<string, map<string, FileState>>
      reads this, userFilesByUsername.Values
    {
      map u | u in userFilesByUsername :: userFilesByUsername[u].fileStatesByFilename
    }

    /**
     * `getFiles`: the user's existing object, or a new empty one that is
     * recorded for the user; no other user's entry changes.
     */
    method GetFiles(username: string) returns (files: UserFiles)
      requires Valid()
      modifies this
      ensures Valid()
      ensures username in old(userFilesByUsername) ==>
                files == old(userFilesByUsername)[username] && userFilesByUsername == old(userFilesByUsername)
      ensures username !in old(userFilesByUsername) ==>
                fresh(files) && files.fileStatesByFilename == map[] &&
                userFilesByUsername == old(userFilesByUsername)[username := files]
      ensures userFilesByUsername[username] == files
      ensures Store() == if username in old(Store()) then old(Store()) else old(Store())[username := map[]]
    {
      if username !in userFilesByUsername {
        var initial := new UserFiles();
        userFilesByUsername := userFilesByUsername[username := initial];
      }
      files := userFilesByUsername[username];
    }
  }

}
