/**
 * The dictionary manager: a word list read lazily from a file, the first time
 * a word is looked up, and kept for the manager's lifetime.
 *
 * The file system is a parameter: `fs(path)` is what opening and reading
 * `path` in text mode yields at the moment of the call, either the decoded
 * contents or a failure with the library's description of it.
 */
module Dictionary {
  import opened Strings

  datatype Option<T> = None | Some(value: T)

  /** The outcome of reading a whole file. */
  datatype ReadOutcome = Contents(text: string) | ReadFailure(reason: string)

  /** `DictionaryManagerError`: the path of the dictionary file and a message. */
  datatype DictionaryManagerError = DictionaryManagerError(dictionaryFile: string, message: string)

  datatype Result<T> = Ok(value: T) | Err(error: DictionaryManagerError)

  /** File name of the default word list inside the package's resources directory. */
  const DefaultFileName: string := "words_alpha.txt"

  /** `os.path.join(directory, name)` on POSIX. */
  function JoinPath(directory: string, name: string): (path: string)
    ensures |name| > 0 && name[0] == '/' ==> path == name
    ensures (|name| == 0 || name[0] != '/') && (directory == [] || directory[|directory| - 1] == '/') ==>
      path == directory + name
    ensures (|name| == 0 || name[0] != '/') && directory != [] && directory[|directory| - 1] != '/' ==>
      path == directory + "/" + name
    ensures (|name| == 0 || name[0] != '/') ==> |path| >= |directory| && path[..|directory|] == directory
    ensures |path| >= |name| && path[|path| - |name|..] == name
  {
    if |name| > 0 && name[0] == '/' then name
    else if directory == [] || directory[|directory| - 1] == '/' then directory + name
    else directory + "/" + name
  }

  /** `_default_dictionary_file`: `words_alpha.txt` inside the resources directory. */
  function DefaultDictionaryFile(resourcesDir: string): (path: string)
    ensures resourcesDir != [] && resourcesDir[|resourcesDir| - 1] != '/' ==>
      path == resourcesDir + "/" + DefaultFileName
    ensures (resourcesDir == [] || resourcesDir[|resourcesDir| - 1] == '/') ==>
      path == resourcesDir + DefaultFileName
    ensures |path| >= |DefaultFileName| && path[|path| - |DefaultFileName|..] == DefaultFileName
  {
    JoinPath(resourcesDir, DefaultFileName)
  }

  /** `set(data.split("\n"))`: every newline-separated segment, verbatim. */
  function ParseDictionary(data: string): (words: set<string>)
    ensures forall w :: w in words <==> w in SplitOn(data, '\n')
  {
    set w | w in SplitOn(data, '\n')
  }

  /** Fixed opening of the message of a failed read. */
  const ReadErrorPrefix: string := "Error reading dictionary file "

  /** The message of the error raised when the file cannot be read: it names the path, then the failure. */
  function ReadErrorMessage(path: string, reason: string): (message: string)
    ensures |message| == |ReadErrorPrefix| + |path| + 1 + |reason|
    ensures message[..|ReadErrorPrefix|] == ReadErrorPrefix
    ensures message[|ReadErrorPrefix|..|ReadErrorPrefix| + |path|] == path
    ensures message[|ReadErrorPrefix| + |path|] == ' '
    ensures message[|message| - |reason|..] == reason
  {
    ReadErrorPrefix + path + " " + reason
  }

  /**
   * The resources directory is `os.path.join(module_dir, 'resources')`, which
   * never ends in "/": the default word list sits inside it, one "/" below.
   */
  lemma DefaultInsideResources(moduleDir: string)
    ensures DefaultDictionaryFile(JoinPath(moduleDir, "resources")) ==
      JoinPath(moduleDir, "resources") + "/" + DefaultFileName
  {
    var dir := JoinPath(moduleDir, "resources");
    assert dir[|dir| - |"resources"|..] == "resources";
    assert dir[|dir| - 1] == 's';
  }

  class DictionaryManager {
    /** The configured path of the word list. */
    const dictionaryFile: string
    /** The cached word set: `None` until a load succeeds. */
    var dictionary: Option<set<string>>
    /** How many times the file has been opened. */
    ghost var Reads: nat
    /** How many times the file has been loaded successfully. */
    ghost var Loads: nat

    /** The cache is filled by exactly one successful load, and a load opens the file. */
    ghost predicate Valid()
      reads this
    {
      && Loads <= 1
      && Loads <= Reads
      && (dictionary.Some? <==> Loads == 1)
    }

    /** `DictionaryManager(dictionary_file)`: a missing or empty path falls back to the default; nothing is read yet. */
    constructor (dictionaryFile: Option<string>, resourcesDir: string)
      ensures Valid()
      ensures this.dictionaryFile ==
        if dictionaryFile.None? || dictionaryFile.value == "" then DefaultDictionaryFile(resourcesDir)
        else dictionaryFile.value
      ensures dictionary == None && Reads == 0
    {
      this.dictionaryFile :=
        if dictionaryFile.Some? && dictionaryFile.value != "" then dictionaryFile.value
        else DefaultDictionaryFile(resourcesDir);
      dictionary := None;
      Reads, Loads := 0, 0;
    }

    /** `_load_dictionary`: the segments of the file, or an error naming the configured path. */
    method LoadDictionary(fs: string -> ReadOutcome) returns (r: Result<set<string>>)
      ensures r.Ok? <==> fs(dictionaryFile).Contents?
      ensures r.Ok? ==> forall w :: w in r.value <==> w in SplitOn(fs(dictionaryFile).text, '\n')
      ensures r.Err? ==> r.error.dictionaryFile == dictionaryFile
      ensures r.Err? ==> r.error.message == ReadErrorMessage(dictionaryFile, fs(dictionaryFile).reason)
    {
      match fs(dictionaryFile)
      case Contents(data) =>
        r := Ok(ParseDictionary(data));
      case ReadFailure(reason) =>
        r := Err(DictionaryManagerError(dictionaryFile, ReadErrorMessage(dictionaryFile, reason)));
    }

    /**
     * `is_word_in_dictionary`: loads the file on the first call (and after a
     * failed load), then answers from the cache.
     */
    method IsWordInDictionary(word: string, fs: string -> ReadOutcome) returns (r: Result<bool>)
      requires Valid()
      modifies this
      ensures Valid()
      ensures old(dictionary).Some? ==>
        dictionary == old(dictionary) && Reads == old(Reads) && Loads == old(Loads) &&
        r == Ok(word in dictionary.value)
      ensures old(dictionary).None? ==> Reads == old(Reads) + 1
      ensures old(dictionary).None? && fs(dictionaryFile).Contents? ==>
        dictionary == Some(ParseDictionary(fs(dictionaryFile).text)) && Loads == old(Loads) + 1 &&
        r == Ok(word in SplitOn(fs(dictionaryFile).text, '\n'))
      ensures old(dictionary).None? && fs(dictionaryFile).ReadFailure? ==>
        dictionary == None && Loads == old(Loads) &&
        r == Err(DictionaryManagerError(dictionaryFile, ReadErrorMessage(dictionaryFile, fs(dictionaryFile).reason)))
    {
      if dictionary.None? {
        Reads := Reads + 1;
        var loaded := LoadDictionary(fs);
        match loaded
        case Err(e) =>
          return Err(e);
        case Ok(words) =>
          dictionary := Some(words);
          Loads := Loads + 1;
          assert words == ParseDictionary(fs(dictionaryFile).text);
      }
      r := Ok(word in dictionary.value);
    }
  }

  /** The dictionary built from a file of newline-separated lines is exactly the set of those lines. */
  lemma ParseDictionaryOfLines(lines: seq<string>)
    requires |lines| >= 1
    requires forall i :: 0 <= i < |lines| ==> '\n' !in lines[i]
    ensures forall w :: w in ParseDictionary(JoinWith(lines, '\n')) <==> w in lines
  {
    SplitOnJoin(lines, '\n');
  }

  /** A lookup through a manager whose file cannot be read reports the configured path, as the tests expect. */
  method MissingFileIsReported(path: string, resourcesDir: string, fs: string -> ReadOutcome)
    returns (r: Result<bool>)
    requires path != ""
    requires fs(path).ReadFailure?
    ensures r.Err? && r.error.dictionaryFile == path
  {
    var manager := new DictionaryManager(Some(path), resourcesDir);
    r := manager.IsWordInDictionary("word", fs);
  }

  /** A failed load leaves the cache empty, so the next lookup reads the file again and can succeed. */
  method RetryAfterFailedLoad(word: string, path: string, broken: string -> ReadOutcome, repaired: string -> ReadOutcome)
    returns (first: Result<bool>, second: Result<bool>)
    requires path != ""
    requires broken(path).ReadFailure? && repaired(path).Contents?
    ensures first.Err? && first.error.dictionaryFile == path
    ensures second == Ok(word in SplitOn(repaired(path).text, '\n'))
  {
    var manager := new DictionaryManager(Some(path), "resources");
    first := manager.IsWordInDictionary(word, broken);
    second := manager.IsWordInDictionary(word, repaired);
  }

  /** Once loaded, the word set is kept: a later change to the file is not seen. */
  method CacheOutlivesFileChange(word: string, path: string, before: string -> ReadOutcome, after: string -> ReadOutcome)
    returns (first: Result<bool>, second: Result<bool>)
    requires path != ""
    requires before(path).Contents?
    ensures first == second == Ok(word in SplitOn(before(path).text, '\n'))
  {
    var manager := new DictionaryManager(Some(path), "resources");
    first := manager.IsWordInDictionary(word, before);
    second := manager.IsWordInDictionary(word, after);
  }
}
