/**
 * The path helpers of src/libs/common/helpers.cpp.  The same code appears
 * as `extractLabelFromPath` in src/libs/fileManager.cpp and again, with
 * `isFilenameValid`, in src/client.cpp; all copies are this one model.
 */
module PathHelpers {
  import opened Text

  /**
   * `extractFilenameFromPath`: a path without '/' is returned whole,
   * otherwise the text after its last '/'.
   */
  function ExtractFilenameFromPath(path: string): (name: string)
    ensures '/' !in name
    ensures |name| <= |path| && name == path[|path| - |name|..]
    ensures '/' !in path ==> name == path
    ensures '/' in path ==> |name| < |path| && path[|path| - |name| - 1] == '/'
  {
    var hasDirectory := IndexOf(path, '/') != -1;
    if !hasDirectory then path
    else
      var lastDirectory := LastIndexOf(path, '/');
      assert |path[lastDirectory + 1..]| == |path| - lastDirectory - 1;
      path[lastDirectory + 1..]
  }

  /** `isFilenameValid`; the length is unsigned, so "at most 0" means empty. */
  function IsFilenameValid(filename: string): (valid: bool)
    ensures valid <==> filename != []
  {
    !(|filename| <= 0)
  }

  /**
   * The result is determined by the contract alone: any suffix of the path
   * that holds no '/' and is the whole path or follows a '/' is the result.
   */
  lemma {:induction false} FilenameIsUnique(path: string, candidate: string)
    requires '/' !in candidate
    requires |candidate| <= |path| && candidate == path[|path| - |candidate|..]
    requires '/' !in path ==> candidate == path
    requires '/' in path ==> |candidate| < |path| && path[|path| - |candidate| - 1] == '/'
    ensures candidate == ExtractFilenameFromPath(path)
  {
    var name := ExtractFilenameFromPath(path);
    if '/' in path {
      SlashFreeSuffix(path, |name|);
      SlashFreeSuffix(path, |candidate|);
      assert |name| <= |candidate| by {
        assert path[|path| - |candidate| - 1] == '/';
      }
      assert |candidate| <= |name| by {
        assert path[|path| - |name| - 1] == '/';
      }
    }
  }

  /** Every position of a suffix free of '/' holds another character. */
  lemma SlashFreeSuffix(path: string, n: nat)
    requires n <= |path| && '/' !in path[|path| - n..]
    ensures forall k :: |path| - n <= k < |path| ==> path[k] != '/'
  {
    forall k | |path| - n <= k < |path|
      ensures path[k] != '/'
    {
      assert path[k] == path[|path| - n..][k - (|path| - n)];
    }
  }

  /** Extracting twice is extracting once. */
  lemma ExtractIsIdempotent(path: string)
    ensures ExtractFilenameFromPath(ExtractFilenameFromPath(path)) == ExtractFilenameFromPath(path)
  {
  }

  /** A path that ends in '/' names no file. */
  lemma TrailingSlashGivesEmpty(path: string)
    requires path != [] && path[|path| - 1] == '/'
    ensures ExtractFilenameFromPath(path) == ""
  {
    var name := ExtractFilenameFromPath(path);
    SlashFreeSuffix(path, |name|);
    assert path[|path| - 1] == '/';
  }

  /** Directories in front of a plain file name are dropped. */
  lemma DirectoryIsDropped(directory: string, filename: string)
    requires '/' !in filename
    ensures ExtractFilenameFromPath(directory + "/" + filename) == filename
  {
    var path := directory + "/" + filename;
    assert path[|path| - |filename|..] == filename;
    assert path[|path| - |filename| - 1] == '/';
    FilenameIsUnique(path, filename);
  }

  /**
   * A prefix, a directory without '/', a '/' and a name: the directory and
   * the name can be read back, so different pairs give different paths.
   */
  lemma JoinIsInjective(prefix: string, dir1: string, name1: string, dir2: string, name2: string)
    requires '/' !in dir1 && '/' !in dir2
    requires prefix + dir1 + "/" + name1 == prefix + dir2 + "/" + name2
    ensures dir1 == dir2 && name1 == name2
  {
    var path := prefix + dir1 + "/" + name1;
    var other := prefix + dir2 + "/" + name2;
    var p := |prefix|;
    assert path[p + |dir1|] == '/';
    assert other[p + |dir2|] == '/';
    assert dir1 == path[p..p + |dir1|] == other[p..p + |dir2|] == dir2;
    assert name1 == path[p + |dir1| + 1..] == other[p + |dir2| + 1..] == name2;
  }
}
