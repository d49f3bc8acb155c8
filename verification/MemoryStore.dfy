/** The namespace store: two flat maps that stand for a tree through their keys. */
module MemoryStore {
  import opened Paths

  datatype FileInfo = FileInfo(path: string, name: string, size: int)
  datatype DirectoryInfo = DirectoryInfo(path: string, name: string)
  datatype Entry = Entry(name: string, path: string, isDir: bool, size: int)

  datatype Store = Store(files: map<string, FileInfo>, directories: map<string, DirectoryInfo>, initialized: bool)

  datatype Outcome = Ok | Uninitialized | AlreadyExists | NotFound | PermissionDenied

  const EMPTY := Store(map[], map[], false)

  // ---------- Effects as functions ----------

  /** A directory other than d whose key starts with d. */
  predicate DirBelow(d: string, key: string) {
    key != d && d <= key
  }

  predicate FileBelow(d: string, filePath: string) {
    d <= ParentKey(filePath)
  }

  predicate HasChildren(s: Store, d: string) {
    || (exists key :: key in s.directories && DirBelow(d, key))
    || (exists f :: f in s.files && FileBelow(d, f))
  }

  function DeleteDirectoryOutcome(s: Store, path: string, recursive: bool): Outcome {
    var d := DirectoryArgument(path);
    if !s.initialized then Uninitialized
    else if d == "/" then PermissionDenied
    else if d !in s.directories then NotFound
    else if !recursive && HasChildren(s, d) then PermissionDenied
    else Ok
  }

  /** Removing a directory removes everything under its key. */
  function WithoutDirectory(s: Store, d: string): Store {
    s.(directories := map key | key in s.directories && !(d <= key) :: s.directories[key],
       files := map f | f in s.files && !FileBelow(d, f) :: s.files[f])
  }

  function CreateDirectoryOutcome(s: Store, path: string): Outcome {
    var d := DirectoryArgument(path);
    var parent := ParentKey(d);
    if !s.initialized then Uninitialized
    else if d in s.directories then AlreadyExists
    else if parent !in s.directories && parent != "/" then NotFound
    else Ok
  }

  function CreateFileOutcome(s: Store, path: string): Outcome {
    var f := Clean(path);
    if !s.initialized then Uninitialized
    else if f in s.files then AlreadyExists
    else if Dir(f) != "/" && Dir(f) !in s.directories then NotFound
    else Ok
  }

  predicate ListsDir(d: string, recursive: bool, key: string) {
    && key != d
    && !(key == "/" && d != "/")
    && (d == "/" || d <= key)
    && (recursive || |key| < |d| || SlashCount(key[|d|..]) <= 1)
  }

  predicate ListsFile(d: string, recursive: bool, filePath: string) {
    ParentKey(filePath) == d || (recursive && d <= ParentKey(filePath))
  }

  function DirEntries(s: Store, dirs: seq<string>): seq<Entry>
    requires forall k :: k in dirs ==> k in s.directories
  {
    seq(|dirs|, i requires 0 <= i < |dirs| => var d := s.directories[dirs[i]]; Entry(d.name, d.path, true, 0))
  }

  function FileEntries(s: Store, files: seq<string>): seq<Entry>
    requires forall f :: f in files ==> f in s.files
  {
    seq(|files|, i requires 0 <= i < |files| => var f := s.files[files[i]]; Entry(f.name, f.path, false, f.size))
  }

  lemma OneMoreDirEntry(s: Store, dirs: seq<string>, k: string)
    requires k in s.directories && forall d :: d in dirs ==> d in s.directories
    ensures DirEntries(s, dirs + [k])
            == DirEntries(s, dirs) + [Entry(s.directories[k].name, s.directories[k].path, true, 0)]
  {
  }

  lemma OneMoreFileEntry(s: Store, files: seq<string>, f: string)
    requires f in s.files && forall g :: g in files ==> g in s.files
    ensures FileEntries(s, files + [f])
            == FileEntries(s, files) + [Entry(s.files[f].name, s.files[f].path, false, s.files[f].size)]
  {
  }

  lemma OneMoreKey(keys: seq<string>, key: string)
    requires NoRepeats(keys) && key !in keys
    ensures NoRepeats(keys + [key])
  {
  }

  ghost predicate NoRepeats(keys: seq<string>) {
    forall i, j :: 0 <= i < j < |keys| ==> keys[i] != keys[j]
  }

  /**
   A listing shows each matching key at most once, directories first; all of them unless the
   limit cut it short, and then exactly as many as the limit.
   */
  ghost predicate Listing(s: Store, d: string, recursive: bool, limit: int,
                          entries: seq<Entry>, dirs: seq<string>, files: seq<string>) {
    && NoRepeats(dirs) && NoRepeats(files)
    && (forall k :: k in dirs ==> k in s.directories && ListsDir(d, recursive, k))
    && (forall f :: f in files ==> f in s.files && ListsFile(d, recursive, f))
    && entries == DirEntries(s, dirs) + FileEntries(s, files)
    && (limit > 0 ==> |entries| <= limit)
    && (limit <= 0 || |entries| < limit ==>
          && (forall k :: k in s.directories && ListsDir(d, recursive, k) ==> k in dirs)
          && (forall f :: f in s.files && ListsFile(d, recursive, f) ==> f in files))
  }

  class MemoryStore {
    var files: map<string, FileInfo>
    var directories: map<string, DirectoryInfo>
    var initialized: bool

    constructor ()
      ensures Contents() == EMPTY
    {
      files, directories, initialized := map[], map[], false;
    }

    function Contents(): Store
      reads this
    {
      Store(files, directories, initialized)
    }

    method Initialize() returns (r: Outcome)
      modifies this
      ensures r == if old(initialized) then AlreadyExists else Ok
      ensures Contents() == StepInitialize(old(Contents()))
      ensures initialized && files == old(files)
      ensures directories == if old(initialized) then old(directories) else old(directories)["/" := DirectoryInfo("/", "/")]
    {
      if initialized {
        return AlreadyExists;
      }
      directories := directories["/" := DirectoryInfo("/", "/")];
      initialized := true;
      return Ok;
    }

    method Close()
      modifies this
      ensures Contents() == if old(initialized) then EMPTY else old(Contents())
    {
      if !initialized {
        return;
      }
      files, directories, initialized := map[], map[], false;
    }

    method CreateFile(info: FileInfo) returns (r: Outcome)
      modifies this
      ensures r == CreateFileOutcome(old(Contents()), info.path)
      ensures Contents() == StepCreateFile(old(Contents()), info)
      ensures var f := Clean(info.path);
              && r == (if !old(initialized) then Uninitialized
                       else if f in old(files) then AlreadyExists
                       else if Dir(f) != "/" && Dir(f) !in old(directories) then NotFound
                       else Ok)
              && directories == old(directories) && initialized == old(initialized)
              && files == (if r == Ok then old(files)[f := FileInfo(f, if info.name == "" then Base(f) else info.name, info.size)]
                           else old(files))
    {
      if !initialized {
        return Uninitialized;
      }
      var filePath := Clean(info.path);
      if filePath in files {
        return AlreadyExists;
      }
      var parentDir := Dir(filePath);
      if parentDir != "/" {
        if parentDir !in directories {
          return NotFound;
        }
      }
      var name := if info.name == "" then Base(filePath) else info.name;
      files := files[filePath := FileInfo(filePath, name, info.size)];
      return Ok;
    }

    method DeleteFile(path: string) returns (r: Outcome)
      modifies this
      ensures r == if !old(initialized) then Uninitialized else if Clean(path) !in old(files) then NotFound else Ok
      ensures Contents() == if r == Ok then old(Contents()).(files := old(files) - {Clean(path)}) else old(Contents())
    {
      if !initialized {
        return Uninitialized;
      }
      var filePath := Clean(path);
      if filePath !in files {
        return NotFound;
      }
      files := files - {filePath};
      return Ok;
    }

    method CreateDirectory(info: DirectoryInfo) returns (r: Outcome)
      modifies this
      ensures r == CreateDirectoryOutcome(old(Contents()), info.path)
      ensures Contents() == StepCreateDirectory(old(Contents()), info)
      ensures files == old(files) && initialized == old(initialized)
      ensures var d := if Clean(info.path) == "/" then "/" else Clean(info.path) + "/";
              directories == if r == Ok then old(directories)[d := DirectoryInfo(d, if info.name == "" then Base(d) else info.name)]
                             else old(directories)
    {
      if !initialized {
        return Uninitialized;
      }
      var dirPath := Clean(info.path);
      if dirPath != "/" {
        dirPath := dirPath + "/";
      }
      if dirPath in directories {
        return AlreadyExists;
      }
      var parentDir := Dir(dirPath);
      if parentDir != "/" {
        parentDir := parentDir + "/";
      }
      if parentDir !in directories && parentDir != "/" {
        return NotFound;
      }
      var name := if info.name == "" then Base(dirPath) else info.name;
      directories := directories[dirPath := DirectoryInfo(dirPath, name)];
      return Ok;
    }

    /** The maps are visited in any order. */
    method DeleteDirectory(path: string, recursive: bool) returns (r: Outcome)
      modifies this
      ensures r == DeleteDirectoryOutcome(old(Contents()), path, recursive)
      ensures Contents() ==
              if r == Ok then WithoutDirectory(old(Contents()), DirectoryArgument(path)) else old(Contents())
      ensures var d := if Clean(path) == "/" then "/" else Clean(path) + "/";
              && (r == Uninitialized <==> !old(initialized))
              && (r == NotFound <==> old(initialized) && d != "/" && d !in old(directories))
              && (r == PermissionDenied <==>
                    old(initialized) && (d == "/" || (d in old(directories) && !recursive && HasChildren(old(Contents()), d))))
              && initialized == old(initialized)
              && (r == Ok ==>
                    && directories == (map k | k in old(directories) && !(d <= k) :: old(directories)[k])
                    && files == (map f | f in old(files) && !(d <= ParentKey(f)) :: old(files)[f]))
    {
      if !initialized {
        return Uninitialized;
      }
      var dirPath := Clean(path);
      if dirPath != "/" {
        dirPath := dirPath + "/";
      }
      if dirPath == "/" {
        return PermissionDenied;
      }
      if dirPath !in directories {
        return NotFound;
      }
      var hasChildren := FindChild(dirPath);
      if hasChildren && !recursive {
        return PermissionDenied;
      }
      if recursive {
        DeleteDirectoriesBelow(dirPath);
        DeleteFilesBelow(dirPath);
      }
      directories := directories - {dirPath};
      return Ok;
    }

    method FindChild(dirPath: string) returns (found: bool)
      ensures found == HasChildren(Contents(), dirPath)
    {
      var pending := directories.Keys;
      while pending != {}
        invariant pending <= directories.Keys
        invariant forall key :: key in directories && key !in pending ==> !DirBelow(dirPath, key)
        decreases |pending|
      {
        var key :| key in pending;
        if DirBelow(dirPath, key) {
          return true;
        }
        pending := pending - {key};
      }
      var unseen := files.Keys;
      while unseen != {}
        invariant unseen <= files.Keys
        invariant forall f :: f in files && f !in unseen ==> !FileBelow(dirPath, f)
        decreases |unseen|
      {
        var f :| f in unseen;
        if FileBelow(dirPath, f) {
          return true;
        }
        unseen := unseen - {f};
      }
      return false;
    }

    method DeleteDirectoriesBelow(dirPath: string)
      modifies this`directories
      ensures directories ==
              map key | key in old(directories) && !DirBelow(dirPath, key) :: old(directories)[key]
    {
      var pending := directories.Keys;
      while pending != {}
        invariant pending <= directories.Keys <= old(directories).Keys
        invariant forall key :: key in old(directories) && key !in pending ==>
                    (key in directories <==> !DirBelow(dirPath, key))
        invariant forall key :: key in directories ==> directories[key] == old(directories)[key]
        decreases |pending|
      {
        var key :| key in pending;
        if DirBelow(dirPath, key) {
          directories := directories - {key};
        }
        pending := pending - {key};
      }
    }

    method DeleteFilesBelow(dirPath: string)
      modifies this`files
      ensures files == map f | f in old(files) && !FileBelow(dirPath, f) :: old(files)[f]
    {
      var pending := files.Keys;
      while pending != {}
        invariant pending <= files.Keys <= old(files).Keys
        invariant forall f :: f in old(files) && f !in pending ==> (f in files <==> !FileBelow(dirPath, f))
        invariant forall f :: f in files ==> files[f] == old(files)[f]
        decreases |pending|
      {
        var f :| f in pending;
        if FileBelow(dirPath, f) {
          files := files - {f};
        }
        pending := pending - {f};
      }
    }

    method ListDirectory(path: string, recursive: bool, limit: int)
      returns (r: Outcome, entries: seq<Entry>, ghost dirs: seq<string>, ghost inFiles: seq<string>)
      ensures r == (if !initialized then Uninitialized
                    else if DirectoryArgument(path) !in directories && DirectoryArgument(path) != "/" then NotFound
                    else Ok)
      ensures if r == Ok then Listing(Contents(), DirectoryArgument(path), recursive, limit, entries, dirs, inFiles)
              else entries == []
    {
      entries, dirs, inFiles := [], [], [];
      if !initialized {
        return Uninitialized, entries, dirs, inFiles;
      }
      var dirPath := DirectoryArgument(path);
      if dirPath !in directories && dirPath != "/" {
        return NotFound, entries, dirs, inFiles;
      }
      entries, dirs := ListDirs(dirPath, recursive, limit);
      var more;
      more, inFiles := ListFiles(dirPath, recursive, limit, |entries|);
      r, entries := Ok, entries + more;
    }

    method ListDirs(dirPath: string, recursive: bool, limit: int) returns (entries: seq<Entry>, ghost dirs: seq<string>)
      ensures NoRepeats(dirs)
      ensures forall k :: k in dirs ==> k in directories && ListsDir(dirPath, recursive, k)
      ensures entries == DirEntries(Contents(), dirs)
      ensures limit > 0 ==> |entries| <= limit
      ensures limit <= 0 || |entries| < limit ==>
                forall k :: k in directories && ListsDir(dirPath, recursive, k) ==> k in dirs
    {
      entries, dirs := [], [];
      var pending := directories.Keys;
      while pending != {}
        invariant pending <= directories.Keys
        invariant NoRepeats(dirs)
        invariant forall k :: k in dirs ==> k in directories && k !in pending && ListsDir(dirPath, recursive, k)
        invariant forall k :: k in directories && k !in pending && ListsDir(dirPath, recursive, k) ==> k in dirs
        invariant entries == DirEntries(Contents(), dirs)
        invariant limit > 0 ==> |entries| <= limit
        decreases |pending|
      {
        if |entries| >= limit && limit > 0 {
          break;
        }
        var key :| key in pending;
        pending := pending - {key};
        if ListsDir(dirPath, recursive, key) {
          OneMoreDirEntry(Contents(), dirs, key);
          OneMoreKey(dirs, key);
          var info := directories[key];
          entries := entries + [Entry(info.name, info.path, true, 0)];
          dirs := dirs + [key];
        }
      }
    }

    method ListFiles(dirPath: string, recursive: bool, limit: int, already: nat)
      returns (entries: seq<Entry>, ghost inFiles: seq<string>)
      requires limit > 0 ==> already <= limit
      ensures NoRepeats(inFiles)
      ensures forall f :: f in inFiles ==> f in files && ListsFile(dirPath, recursive, f)
      ensures entries == FileEntries(Contents(), inFiles)
      ensures limit > 0 ==> already + |entries| <= limit
      ensures limit <= 0 || already + |entries| < limit ==>
                forall f :: f in files && ListsFile(dirPath, recursive, f) ==> f in inFiles
    {
      entries, inFiles := [], [];
      var pending := files.Keys;
      while pending != {}
        invariant pending <= files.Keys
        invariant NoRepeats(inFiles)
        invariant forall f :: f in inFiles ==> f in files && f !in pending && ListsFile(dirPath, recursive, f)
        invariant forall f :: f in files && f !in pending && ListsFile(dirPath, recursive, f) ==> f in inFiles
        invariant entries == FileEntries(Contents(), inFiles)
        invariant limit > 0 ==> already + |entries| <= limit
        decreases |pending|
      {
        if already + |entries| >= limit && limit > 0 {
          break;
        }
        var f :| f in pending;
        pending := pending - {f};
        if ListsFile(dirPath, recursive, f) {
          OneMoreFileEntry(Contents(), inFiles, f);
          OneMoreKey(inFiles, f);
          var info := files[f];
          entries := entries + [Entry(info.name, info.path, false, info.size)];
          inFiles := inFiles + [f];
        }
      }
    }
  }

  // ---------- The tree behind the keys ----------

  /** Every key is the spelling of a component list; a file may even be spelled like the root. */
  ghost predicate WellKeyed(s: Store) {
    && (forall k :: k in s.directories ==> Components(Resolved(k)) && k == DirKey(Resolved(k)))
    && (forall f :: f in s.files ==> Components(Resolved(f)) && f == FileKey(Resolved(f)))
  }

  /** The directory something sits in; the root counts as its own parent, as it does for path.Dir. */
  function Parent(cs: seq<string>): seq<string> {
    if cs == [] then [] else cs[..|cs| - 1]
  }

  ghost predicate ParentExists(s: Store, cs: seq<string>) {
    DirKey(Parent(cs)) in s.directories
  }

  /** Every directory and every file sits in a directory that exists. */
  ghost predicate ParentClosed(s: Store) {
    && "/" in s.directories
    && (forall k {:trigger ParentExists(s, Resolved(k))} :: k in s.directories ==> ParentExists(s, Resolved(k)))
    && (forall f {:trigger ParentExists(s, Resolved(f))} :: f in s.files ==> ParentExists(s, Resolved(f)))
  }

  /** A file named "/" is looked up under the root like the files in it. */
  lemma ParentKeyIsParent(cs: seq<string>)
    requires Components(cs)
    ensures ParentKey(FileKey(cs)) == DirKey(Parent(cs))
  {
    if cs == [] {
      assert UpToLastSlash("/") == "/";
      ResolvedKeys([]);
      assert FileKey([]) == "/" == DirKey([]);
    } else {
      ParentKeyOfFile(cs);
    }
  }

  /** For stored keys the two string tests mean: at or below the directory in the tree. */
  lemma PrefixTestsMeanDescent(s: Store, d: seq<string>)
    requires WellKeyed(s) && Components(d)
    ensures forall k :: k in s.directories ==> (DirKey(d) <= k <==> d <= Resolved(k))
    ensures forall f :: f in s.files ==> (FileBelow(DirKey(d), f) <==> d <= Parent(Resolved(f)))
  {
    forall k | k in s.directories ensures DirKey(d) <= k <==> d <= Resolved(k) {
      KeyPrefixIsDescent(Resolved(k), d);
    }
    forall f | f in s.files ensures FileBelow(DirKey(d), f) <==> d <= Parent(Resolved(f)) {
      ParentKeyIsParent(Resolved(f));
      KeyPrefixIsDescent(Parent(Resolved(f)), d);
    }
  }

  lemma SubtreeIsGone(s: Store, cs: seq<string>)
    requires WellKeyed(s) && Components(cs)
    ensures var t := WithoutDirectory(s, DirKey(cs));
            && WellKeyed(t)
            && (forall k :: k in t.directories <==> k in s.directories && !(cs <= Resolved(k)))
            && (forall f :: f in t.files <==> f in s.files && !(cs <= Parent(Resolved(f))))
  {
    PrefixTestsMeanDescent(s, cs);
  }

  lemma RestIsParentClosed(s: Store, cs: seq<string>)
    requires WellKeyed(s) && ParentClosed(s) && Components(cs) && cs != []
    ensures ParentClosed(WithoutDirectory(s, DirKey(cs)))
  {
    RootStays(s, cs);
    DirectoriesStayInTree(s, cs);
    FilesStayInTree(s, cs);
  }

  lemma RootStays(s: Store, d: seq<string>)
    requires "/" in s.directories && Components(d) && d != []
    ensures "/" in WithoutDirectory(s, DirKey(d)).directories
  {
    KeyPrefixIsDescent([], d);
    assert DirKey([]) == "/";
  }

  lemma DirectoriesStayInTree(s: Store, d: seq<string>)
    requires WellKeyed(s) && ParentClosed(s) && Components(d)
    ensures var t := WithoutDirectory(s, DirKey(d)); forall k :: k in t.directories ==> ParentExists(t, Resolved(k))
  {
    var t := WithoutDirectory(s, DirKey(d));
    forall k | k in t.directories ensures ParentExists(t, Resolved(k)) {
      DirectoryStaysOutside(s, d, k);
    }
  }

  lemma FilesStayInTree(s: Store, d: seq<string>)
    requires WellKeyed(s) && ParentClosed(s) && Components(d)
    ensures var t := WithoutDirectory(s, DirKey(d)); forall f :: f in t.files ==> ParentExists(t, Resolved(f))
  {
    var t := WithoutDirectory(s, DirKey(d));
    forall f | f in t.files ensures ParentExists(t, Resolved(f)) {
      FileStaysOutside(s, d, f);
    }
  }

  lemma DirectoryStaysOutside(s: Store, d: seq<string>, k: string)
    requires WellKeyed(s) && Components(d) && k in WithoutDirectory(s, DirKey(d)).directories
    requires ParentExists(s, Resolved(k))
    ensures ParentExists(WithoutDirectory(s, DirKey(d)), Resolved(k))
  {
    var cs := Resolved(k);
    KeyPrefixIsDescent(cs, d);
    assert !(d <= Parent(cs));
    ParentSurvives(s, d, cs);
  }

  lemma FileStaysOutside(s: Store, d: seq<string>, f: string)
    requires WellKeyed(s) && Components(d) && f in WithoutDirectory(s, DirKey(d)).files
    requires ParentExists(s, Resolved(f))
    ensures ParentExists(WithoutDirectory(s, DirKey(d)), Resolved(f))
  {
    var cs := Resolved(f);
    ParentKeyIsParent(cs);
    KeyPrefixIsDescent(Parent(cs), d);
    ParentSurvives(s, d, cs);
  }

  lemma ParentSurvives(s: Store, d: seq<string>, cs: seq<string>)
    requires WellKeyed(s) && Components(d) && Components(cs)
    requires ParentExists(s, cs) && !(d <= Parent(cs))
    ensures ParentExists(WithoutDirectory(s, DirKey(d)), cs)
  {
    SubtreeIsGone(s, d);
    ResolvedKeys(Parent(cs));
  }

  /**
   Deleting a directory removes exactly the directory and its descendants, and what is left
   is again a tree; without recursion that is the directory alone.
   */
  lemma DeleteRemovesSubtree(s: Store, path: string, recursive: bool)
    requires WellKeyed(s) && ParentClosed(s)
    requires DeleteDirectoryOutcome(s, path, recursive) == Ok
    ensures var cs, t := Resolved(DirectoryArgument(path)), WithoutDirectory(s, DirectoryArgument(path));
            && WellKeyed(t) && ParentClosed(t)
            && (forall k :: k in t.directories <==> k in s.directories && !(cs <= Resolved(k)))
            && (forall f :: f in t.files <==> f in s.files && !(cs <= Parent(Resolved(f))))
            && (!recursive ==> t.directories.Keys == s.directories.Keys - {DirectoryArgument(path)} && t.files == s.files)
  {
    var d := DirectoryArgument(path);
    DirKeyIsFileKeySlash(Resolved(d));
    SubtreeIsGone(s, Resolved(d));
    RestIsParentClosed(s, Resolved(d));
    if !recursive {
      ChildlessDeleteRemovesOne(s, d);
    }
  }

  lemma ChildlessDeleteRemovesOne(s: Store, d: string)
    requires d in s.directories && !HasChildren(s, d)
    ensures WithoutDirectory(s, d).directories.Keys == s.directories.Keys - {d}
    ensures WithoutDirectory(s, d).files == s.files
  {
    assert forall k :: k in s.directories ==> (d <= k <==> k == d) by {
      forall k | k in s.directories ensures d <= k <==> k == d {
        assert !DirBelow(d, k);
      }
    }
    assert forall f :: f in s.files ==> !FileBelow(d, f);
  }

  lemma RecursiveDirIsDescendant(d: seq<string>, cs: seq<string>)
    requires Components(d) && Components(cs)
    ensures ListsDir(DirKey(d), true, DirKey(cs)) <==> d < cs
  {
    KeyPrefixIsDescent(cs, d);
    KeysAreInjective(cs, d);
    KeysAreInjective(d, []);
    KeysAreInjective(cs, []);
    assert DirKey([]) == "/";
    assert d < cs <==> d <= cs && d != cs;
    assert DirKey(d) <= DirKey(cs) <==> d <= cs;
  }

  lemma PlainDirIsChild(d: seq<string>, cs: seq<string>)
    requires Components(d) && Components(cs)
    ensures ListsDir(DirKey(d), false, DirKey(cs)) <==> cs != [] && Parent(cs) == d
  {
    RecursiveDirIsDescendant(d, cs);
    if d < cs {
      SlashesCountLevels(cs, d);
      assert DirKey(cs)[|DirKey(d)|..] == Terminated(cs)[|Terminated(d)|..];
    }
  }

  lemma ListedFileIsBelow(d: seq<string>, cs: seq<string>)
    requires Components(d) && Components(cs)
    ensures ListsFile(DirKey(d), true, FileKey(cs)) <==> d <= Parent(cs)
    ensures ListsFile(DirKey(d), false, FileKey(cs)) <==> Parent(cs) == d
    ensures d <= Parent(cs) <==> d < cs || d == cs == []
  {
    ParentKeyIsParent(cs);
    KeysAreInjective(Parent(cs), d);
    KeyPrefixIsDescent(Parent(cs), d);
  }

  /** An unlimited recursive listing shows exactly the proper descendants, and of the root also a file named "/". */
  lemma RecursiveListingIsSubtree(s: Store, d: seq<string>)
    requires WellKeyed(s) && Components(d)
    ensures forall k :: k in s.directories ==> (ListsDir(DirKey(d), true, k) <==> d < Resolved(k))
    ensures forall f :: f in s.files ==>
              (ListsFile(DirKey(d), true, f) <==> d < Resolved(f) || d == Resolved(f) == [])
  {
    forall k | k in s.directories ensures ListsDir(DirKey(d), true, k) <==> d < Resolved(k) {
      RecursiveDirIsDescendant(d, Resolved(k));
    }
    forall f | f in s.files ensures ListsFile(DirKey(d), true, f) <==> d < Resolved(f) || d == Resolved(f) == [] {
      ListedFileIsBelow(d, Resolved(f));
    }
  }

  /** A plain listing shows exactly the children. */
  lemma PlainListingIsChildren(s: Store, d: seq<string>)
    requires WellKeyed(s) && Components(d)
    ensures forall k :: k in s.directories ==>
              (ListsDir(DirKey(d), false, k) <==> Resolved(k) != [] && Parent(Resolved(k)) == d)
    ensures forall f :: f in s.files ==> (ListsFile(DirKey(d), false, f) <==> Parent(Resolved(f)) == d)
  {
    forall k | k in s.directories
      ensures ListsDir(DirKey(d), false, k) <==> Resolved(k) != [] && Parent(Resolved(k)) == d
    {
      PlainDirIsChild(d, Resolved(k));
    }
    forall f | f in s.files ensures ListsFile(DirKey(d), false, f) <==> Parent(Resolved(f)) == d {
      ListedFileIsBelow(d, Resolved(f));
    }
  }

  /** In tree terms: a non-recursive delete succeeds exactly when nothing lies below. */
  lemma PlainDeleteIffNothingBelow(s: Store, path: string)
    requires s.initialized && WellKeyed(s)
    requires DirectoryArgument(path) != "/" && DirectoryArgument(path) in s.directories
    ensures var cs := Resolved(DirectoryArgument(path));
            DeleteDirectoryOutcome(s, path, false) == Ok
            <==> (forall k :: k in s.directories ==> !(cs < Resolved(k))) && (forall f :: f in s.files ==> !(cs < Resolved(f)))
  {
    var d := DirectoryArgument(path);
    RecursiveListingIsSubtree(s, Resolved(d));
    ChildrenAreListed(s, d);
  }

  /** In every store: it succeeds exactly when a recursive listing of the directory, under any limit, is empty. */
  lemma PlainDeleteIffListingEmpty(s: Store, path: string, limit: int,
                                   entries: seq<Entry>, dirs: seq<string>, files: seq<string>)
    requires s.initialized && DirectoryArgument(path) != "/" && DirectoryArgument(path) in s.directories
    requires Listing(s, DirectoryArgument(path), true, limit, entries, dirs, files)
    ensures DeleteDirectoryOutcome(s, path, false) == Ok <==> entries == []
  {
    var d := DirectoryArgument(path);
    assert |entries| == |dirs| + |files|;
    ChildrenAreListed(s, d);
    if dirs != [] {
      assert dirs[0] in dirs;
    } else if files != [] {
      assert files[0] in files;
    }
  }

  /** The entries are those of the matching directories and then of the matching files, with their recorded names. */
  lemma ListedEntries(s: Store, d: string, recursive: bool, limit: int, entries: seq<Entry>, dirs: seq<string>, files: seq<string>)
    requires Listing(s, d, recursive, limit, entries, dirs, files)
    ensures |entries| == |dirs| + |files|
    ensures forall i :: 0 <= i < |dirs| ==>
              && dirs[i] in s.directories
              && entries[i] == Entry(s.directories[dirs[i]].name, s.directories[dirs[i]].path, true, 0)
    ensures forall i :: 0 <= i < |files| ==>
              && files[i] in s.files
              && entries[|dirs| + i] == Entry(s.files[files[i]].name, s.files[files[i]].path, false, s.files[files[i]].size)
  {
    assert forall i :: 0 <= i < |dirs| ==> dirs[i] in dirs;
    assert forall i :: 0 <= i < |files| ==> files[i] in files;
  }

  function Keys(keys: seq<string>): set<string> {
    set k | k in keys
  }

  lemma {:induction false} KeysAreCounted(keys: seq<string>)
    requires NoRepeats(keys)
    ensures |Keys(keys)| == |keys|
  {
    if keys != [] {
      var front, last := keys[..|keys| - 1], keys[|keys| - 1];
      assert keys == front + [last] && last !in front;
      KeysAreCounted(front);
      assert Keys(keys) == Keys(front) + {last};
    }
  }

  lemma FewerKeys(keys: seq<string>, all: set<string>)
    requires NoRepeats(keys) && Keys(keys) <= all
    ensures |keys| <= |all| && (all <= Keys(keys) ==> |keys| == |all|)
  {
    KeysAreCounted(keys);
    assert all == Keys(keys) + (all - Keys(keys));
  }

  /** A listing has as many entries as there are matches, or as the limit allows if that is fewer. */
  lemma ListingCount(s: Store, d: string, recursive: bool, limit: int, entries: seq<Entry>, dirs: seq<string>, files: seq<string>)
    requires Listing(s, d, recursive, limit, entries, dirs, files)
    ensures var matches := |set k | k in s.directories && ListsDir(d, recursive, k)|
                           + |set f | f in s.files && ListsFile(d, recursive, f)|;
            |entries| == if limit <= 0 || matches < limit then matches else limit
  {
    var allDirs := set k | k in s.directories && ListsDir(d, recursive, k);
    var allFiles := set f | f in s.files && ListsFile(d, recursive, f);
    FewerKeys(dirs, allDirs);
    FewerKeys(files, allFiles);
  }

  lemma ChildrenAreListed(s: Store, d: string)
    requires d != "/" && d != ""
    ensures forall k :: k in s.directories ==> (DirBelow(d, k) <==> ListsDir(d, true, k))
    ensures forall f :: f in s.files ==> (FileBelow(d, f) <==> ListsFile(d, true, f))
  {
  }

  // ---------- What the creating operations really do ----------

  function StepInitialize(s: Store): Store {
    if s.initialized then s
    else s.(directories := s.directories["/" := DirectoryInfo("/", "/")], initialized := true)
  }

  function StepCreateFile(s: Store, info: FileInfo): Store {
    var f := Clean(info.path);
    if CreateFileOutcome(s, info.path) != Ok then s
    else s.(files := s.files[f := FileInfo(f, if info.name == "" then Base(f) else info.name, info.size)])
  }

  function StepCreateDirectory(s: Store, info: DirectoryInfo): Store {
    var d := DirectoryArgument(info.path);
    if CreateDirectoryOutcome(s, info.path) != Ok then s
    else s.(directories := s.directories[d := DirectoryInfo(d, if info.name == "" then Base(d) else info.name)])
  }

  /**
   The parent looked up for a new directory is the directory itself, which was just found
   missing: creation succeeds only for a missing root.
   */
  lemma CreateDirectorySucceedsOnlyForMissingRoot(s: Store, path: string)
    ensures CreateDirectoryOutcome(s, path) == Ok
        <==> s.initialized && DirectoryArgument(path) == "/" && "/" !in s.directories
  {
    DirOfDirectoryIsItself(path);
    assert ParentKey(DirectoryArgument(path)) == DirectoryArgument(path);
  }

  /**
   The parent of a new file is looked up without the slash that every directory key carries:
   creation succeeds exactly for a new name whose path.Dir is the root, be it "/" itself.
   */
  lemma CreateFileSucceedsOnlyInRoot(s: Store, path: string)
    requires WellKeyed(s)
    ensures CreateFileOutcome(s, path) == Ok
        <==> s.initialized && Clean(path) !in s.files && Dir(Clean(path)) == "/"
  {
    var d := Dir(Clean(path));
    if d != "/" && d in s.directories {
      var cs := Resolved(d);
      DirKeyIsFileKeySlash(cs);
      CleanIsIdempotent(UpToLastSlash(Clean(path)));
      ResolvedKeys(cs);
    }
  }

  datatype Op =
    | Initialize
    | Close
    | CreateFile(file: FileInfo)
    | DeleteFile(path: string)
    | CreateDirectory(dir: DirectoryInfo)
    | DeleteDirectory(path: string, recursive: bool)

  function Step(s: Store, op: Op): Store {
    match op
    case Initialize => StepInitialize(s)
    case Close => if s.initialized then EMPTY else s
    case CreateFile(info) => StepCreateFile(s, info)
    case DeleteFile(path) => if s.initialized then s.(files := s.files - {Clean(path)}) else s
    case CreateDirectory(info) => StepCreateDirectory(s, info)
    case DeleteDirectory(path, recursive) =>
      if DeleteDirectoryOutcome(s, path, recursive) == Ok then WithoutDirectory(s, DirectoryArgument(path)) else s
  }

  function Run(s: Store, ops: seq<Op>): Store {
    if ops == [] then s else Step(Run(s, ops[..|ops| - 1]), ops[|ops| - 1])
  }

  /** In every run no directory but the root exists, and path.Dir of every file is the root. */
  lemma {:induction false} RunsHaveDepthOne(ops: seq<Op>)
    ensures var s := Run(EMPTY, ops);
            && s.directories.Keys == (if s.initialized then {"/"} else {})
            && (s.files != map[] ==> s.initialized)
            && forall f :: f in s.files ==> Dir(f) == "/" && Clean(f) == f
  {
    if ops != [] {
      var before, op := Run(EMPTY, ops[..|ops| - 1]), ops[|ops| - 1];
      RunsHaveDepthOne(ops[..|ops| - 1]);
      match op {
        case CreateFile(info) =>
          CleanIsIdempotent(info.path);
          NoKeyWithoutSlash(before, Dir(Clean(info.path)));
        case CreateDirectory(info) =>
          CreateDirectorySucceedsOnlyForMissingRoot(before, info.path);
        case _ =>
      }
    }
  }

  lemma NoKeyWithoutSlash(s: Store, d: string)
    requires s.directories.Keys == if s.initialized then {"/"} else {}
    ensures d in s.directories ==> d == "/"
  {
  }

  /** A cleaned path whose directory is the root is a file key one level down, or the root's own spelling. */
  lemma PathsUnderRoot(f: string)
    requires Dir(f) == "/" && Clean(f) == f
    ensures Components(Resolved(f)) && f == FileKey(Resolved(f)) && Parent(Resolved(f)) == []
    ensures f == "/" <==> Resolved(f) == []
  {
    var cs := Resolved(f);
    RootedIfDirIsRoot(f);
    ResolvedIsNormal(f);
    ParentKeyIsParent(cs);
    if cs != [] {
      assert Components(Parent(cs));
      KeysAreInjective(Parent(cs), []);
      assert DirKey([]) == "/";
      JoinStartsWithFirst(cs);
    }
  }

  /** Every reachable store is a tree once initialised, so what is proved of trees holds of every run. */
  lemma ReachableStoresAreTrees(ops: seq<Op>)
    ensures var s := Run(EMPTY, ops); WellKeyed(s) && (s.initialized ==> ParentClosed(s))
  {
    var s := Run(EMPTY, ops);
    RunsHaveDepthOne(ops);
    ResolvedKeys([]);
    assert DirKey([]) == "/";
    forall f | f in s.files ensures Components(Resolved(f)) && f == FileKey(Resolved(f)) && ParentExists(s, Resolved(f)) {
      PathsUnderRoot(f);
    }
    forall k | k in s.directories ensures k == DirKey([]) && Resolved(k) == [] && ParentExists(s, Resolved(k)) {
    }
  }

  /**
   In every run no directory but the root exists, and every file but one named "/" sits
   directly under it; so all do exactly if "/" is no file.
   */
  lemma ReachableStoresAreFlat(ops: seq<Op>)
    ensures var s := Run(EMPTY, ops);
            && s.directories.Keys == (if s.initialized then {"/"} else {})
            && (forall f :: f in s.files ==> |Resolved(f)| == if f == "/" then 0 else 1)
            && ((forall f :: f in s.files ==> [] < Resolved(f)) <==> "/" !in s.files)
  {
    var s := Run(EMPTY, ops);
    RunsHaveDepthOne(ops);
    forall f | f in s.files ensures |Resolved(f)| == if f == "/" then 0 else 1 {
      PathsUnderRoot(f);
    }
  }

  /** The root's own path is accepted as a new file of any run's store, and then listed inside the root. */
  lemma RootCanBeAFile(ops: seq<Op>, info: FileInfo)
    requires Run(EMPTY, ops).initialized && "/" !in Run(EMPTY, ops).files && Clean(info.path) == "/"
    ensures var t := Run(EMPTY, ops + [CreateFile(info)]);
            "/" in t.files && "/" in t.directories && ListsFile("/", false, "/")
  {
    assert (ops + [CreateFile(info)])[..|ops|] == ops;
    RunsHaveDepthOne(ops);
    ResolvedKeys([]);
    ParentKeyIsParent([]);
    assert FileKey([]) == "/" == DirKey([]);
  }
}
