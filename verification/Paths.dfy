/**
 Slash-separated paths: Go's path.Clean, path.Dir and path.Base by their documented rules,
 and the slash-terminated directory keys the store is built on.
 */
module Paths {

  /** The parts between slashes; there is always at least one. */
  function Split(p: string): (parts: seq<string>)
    ensures parts != []
  {
    if p == "" then [""]
    else
      var rest := Split(p[1..]);
      if p[0] == '/' then [""] + rest else [[p[0]] + rest[0]] + rest[1..]
  }

  function Join(parts: seq<string>): string {
    if parts == [] then ""
    else if |parts| == 1 then parts[0]
    else parts[0] + "/" + Join(parts[1..])
  }

  /** Drops empty and "." parts and lets ".." cancel the part before it; a rooted path cannot climb above "/". */
  function Resolve(parts: seq<string>, stack: seq<string>, rooted: bool): seq<string> {
    if parts == [] then stack
    else
      var part, rest := parts[0], parts[1..];
      if part == "" || part == "." then Resolve(rest, stack, rooted)
      else if part == ".." then
        if stack != [] && stack[|stack| - 1] != ".." then Resolve(rest, stack[..|stack| - 1], rooted)
        else Resolve(rest, if rooted then stack else stack + [".."], rooted)
      else Resolve(rest, stack + [part], rooted)
  }

  predicate Rooted(p: string) {
    p != "" && p[0] == '/'
  }

  function Resolved(p: string): seq<string> {
    Resolve(Split(p), [], Rooted(p))
  }

  /** path.Clean */
  function Clean(p: string): string {
    var parts := Resolved(p);
    if Rooted(p) then "/" + Join(parts)
    else if parts == [] then "."
    else Join(parts)
  }

  function UpToLastSlash(p: string): string {
    if p == "" || p[|p| - 1] == '/' then p else UpToLastSlash(p[..|p| - 1])
  }

  /** path.Dir */
  function Dir(p: string): string {
    Clean(UpToLastSlash(p))
  }

  function TrimSlashes(p: string): string {
    if p != "" && p[|p| - 1] == '/' then TrimSlashes(p[..|p| - 1]) else p
  }

  lemma {:induction false} UpToLastSlashIsPrefix(p: string)
    ensures UpToLastSlash(p) <= p
  {
    if p != "" && p[|p| - 1] != '/' {
      UpToLastSlashIsPrefix(p[..|p| - 1]);
    }
  }

  /** path.Base */
  function Base(p: string): string {
    if p == "" then "."
    else
      var t := TrimSlashes(p);
      if t == "" then "/"
      else
        UpToLastSlashIsPrefix(t);
        t[|UpToLastSlash(t)|..]
  }

  /** How the store normalises a directory argument. */
  function DirectoryArgument(p: string): string {
    var c := Clean(p);
    if c == "/" then c else c + "/"
  }

  /** The directory key under which a file is looked up when listing or deleting. */
  function ParentKey(filePath: string): string {
    var d := Dir(filePath);
    if d == "/" then d else d + "/"
  }

  // ---------- Clean is a normal form ----------

  ghost predicate NoSlash(parts: seq<string>) {
    forall k :: 0 <= k < |parts| ==> '/' !in parts[k]
  }

  /** Parts that Resolve keeps: names, after leading ".." parts if the path is relative. */
  ghost predicate Normal(parts: seq<string>, rooted: bool) {
    && NoSlash(parts)
    && (forall k :: 0 <= k < |parts| ==> parts[k] != "" && parts[k] != ".")
    && (rooted ==> forall k :: 0 <= k < |parts| ==> parts[k] != "..")
    && forall k :: 0 < k < |parts| && parts[k] == ".." ==> parts[k - 1] == ".."
  }

  lemma {:induction false} SplitHasNoSlash(p: string)
    ensures NoSlash(Split(p))
  {
    if p != "" {
      SplitHasNoSlash(p[1..]);
    }
  }

  lemma {:induction false} ResolveIsNormal(parts: seq<string>, stack: seq<string>, rooted: bool)
    requires NoSlash(parts) && Normal(stack, rooted)
    ensures Normal(Resolve(parts, stack, rooted), rooted)
    decreases |parts|
  {
    if parts != [] {
      var part, rest := parts[0], parts[1..];
      if part == "" || part == "." {
        ResolveIsNormal(rest, stack, rooted);
      } else if part == ".." {
        if stack != [] && stack[|stack| - 1] != ".." {
          ResolveIsNormal(rest, stack[..|stack| - 1], rooted);
        } else {
          ResolveIsNormal(rest, if rooted then stack else stack + [".."], rooted);
        }
      } else {
        ResolveIsNormal(rest, stack + [part], rooted);
      }
    }
  }

  lemma ResolvedIsNormal(p: string)
    ensures Normal(Resolved(p), Rooted(p))
  {
    SplitHasNoSlash(p);
    ResolveIsNormal(Split(p), [], Rooted(p));
  }

  lemma {:induction false} ResolveKeepsNormal(parts: seq<string>, stack: seq<string>, rooted: bool)
    requires Normal(stack + parts, rooted)
    ensures Resolve(parts, stack, rooted) == stack + parts
    decreases |parts|
  {
    if parts == [] {
      assert stack + parts == stack;
    } else {
      var all := stack + parts;
      assert all[|stack|] == parts[0];
      assert stack + [parts[0]] + parts[1..] == all;
      if parts[0] == ".." && stack != [] {
        assert all[|stack| - 1] == "..";
      }
      ResolveKeepsNormal(parts[1..], stack + [parts[0]], rooted);
    }
  }

  lemma {:induction false} SplitOfConcat(a: string, b: string)
    requires '/' !in a
    ensures Split(a + b) == [a + Split(b)[0]] + Split(b)[1..]
  {
    if a == "" {
      assert a + b == b && a + Split(b)[0] == Split(b)[0];
    } else {
      SplitOfConcat(a[1..], b);
      assert (a + b)[1..] == a[1..] + b;
      assert [a[0]] + (a[1..] + Split(b)[0]) == a + Split(b)[0];
    }
  }

  lemma {:induction false} SplitJoin(parts: seq<string>)
    requires parts != [] && NoSlash(parts)
    ensures Split(Join(parts)) == parts
  {
    var head, rest := parts[0], parts[1..];
    if |parts| == 1 {
      assert head + "" == head;
      SplitOfConcat(head, "");
      assert [head + ""] + [] == parts;
    } else {
      SplitJoin(rest);
      SplitOfConcat(head, "/" + Join(rest));
      assert head + "/" + Join(rest) == head + ("/" + Join(rest));
      assert ("/" + Join(rest))[1..] == Join(rest);
      assert Split("/" + Join(rest)) == [""] + rest;
      assert head + "" == head;
    }
  }

  lemma {:induction false} SplitTrailingSlash(p: string)
    ensures Split(p + "/") == Split(p) + [""]
  {
    if p == "" {
      assert p + "/" == "/";
      assert Split("/") == [""] + Split("/"[1..]);
    } else {
      SplitTrailingSlash(p[1..]);
      assert (p + "/")[1..] == p[1..] + "/";
    }
  }

  lemma SplitRooted(p: string)
    ensures Split("/" + p) == [""] + Split(p)
  {
    assert ("/" + p)[1..] == p;
  }

  lemma {:induction false} ResolveIgnoresTrailingEmpty(parts: seq<string>, stack: seq<string>, rooted: bool)
    ensures Resolve(parts + [""], stack, rooted) == Resolve(parts, stack, rooted)
    decreases |parts|
  {
    if parts == [] {
      assert parts + [""] == [""];
      assert [""][1..] == [];
    } else {
      assert (parts + [""])[1..] == parts[1..] + [""];
      var part := parts[0];
      if part == "" || part == "." {
        ResolveIgnoresTrailingEmpty(parts[1..], stack, rooted);
      } else if part == ".." {
        if stack != [] && stack[|stack| - 1] != ".." {
          ResolveIgnoresTrailingEmpty(parts[1..], stack[..|stack| - 1], rooted);
        } else {
          ResolveIgnoresTrailingEmpty(parts[1..], if rooted then stack else stack + [".."], rooted);
        }
      } else {
        ResolveIgnoresTrailingEmpty(parts[1..], stack + [part], rooted);
      }
    }
  }

  /** A trailing slash never matters to Clean. */
  lemma CleanIgnoresTrailingSlash(p: string)
    requires p != ""
    ensures Clean(p + "/") == Clean(p)
  {
    SplitTrailingSlash(p);
    ResolveIgnoresTrailingEmpty(Split(p), [], Rooted(p));
    assert Rooted(p + "/") == Rooted(p);
  }

  lemma JoinStartsWithFirst(parts: seq<string>)
    requires parts != [] && parts[0] != ""
    ensures Join(parts) != "" && Join(parts)[0] == parts[0][0]
  {
  }

  /** Joining normal parts is undone by resolving. */
  lemma CleanOfNormal(parts: seq<string>, rooted: bool)
    requires Normal(parts, rooted)
    ensures rooted ==> Clean("/" + Join(parts)) == "/" + Join(parts) && Resolved("/" + Join(parts)) == parts
    ensures !rooted && parts != [] ==> Clean(Join(parts)) == Join(parts)
  {
    ResolveKeepsNormal(parts, [], rooted);
    assert [] + parts == parts;
    if parts != [] {
      SplitJoin(parts);
      JoinStartsWithFirst(parts);
      assert parts[0][0] in parts[0];
    }
    if rooted {
      SplitRooted(Join(parts));
      var split := Split("/" + Join(parts));
      assert split == [""] + Split(Join(parts));
      assert split[1..] == Split(Join(parts));
      if parts == [] {
        assert Split("") == [""];
        assert [""][1..] == [];
        assert Resolve([""], [], true) == Resolve([], [], true) == [];
      }
      assert Resolve(split, [], true) == Resolve(split[1..], [], true);
    }
  }

  /** path.Clean is idempotent on every string. */
  lemma CleanIsIdempotent(p: string)
    ensures Clean(Clean(p)) == Clean(p)
    ensures Clean(p) != ""
  {
    ResolvedIsNormal(p);
    CleanOfNormal(Resolved(p), Rooted(p));
    if !Rooted(p) {
      if Resolved(p) == [] {
        CleanOfDot();
      } else {
        JoinStartsWithFirst(Resolved(p));
      }
    }
  }

  lemma CleanOfDot()
    ensures Clean(".") == "."
  {
    var dot := ".";
    assert dot[1..] == "";
    assert Split(dot) == [dot] by {
      assert Split("") == [""];
      assert [dot[0]] + "" == dot;
    }
    assert Split(dot)[1..] == [];
  }

  lemma DirOfSlashTerminated(p: string)
    ensures Dir(p + "/") == Clean(p + "/")
  {
  }

  /** For a normalised directory path, path.Dir is the directory itself, not its parent. */
  lemma DirOfDirectoryIsItself(p: string)
    ensures Dir(DirectoryArgument(p)) == Clean(p)
  {
    CleanIsIdempotent(p);
    if Clean(p) == "/" {
      assert UpToLastSlash("/") == "/";
    } else {
      CleanIgnoresTrailingSlash(Clean(p));
      DirOfSlashTerminated(Clean(p));
    }
  }

  /** What one more character in front does to the parts. */
  function Prepend(c: char, parts: seq<string>): seq<string>
    requires parts != []
  {
    if c == '/' then [""] + parts else [[c] + parts[0]] + parts[1..]
  }

  lemma SplitStep(c: char, rest: string)
    ensures Split([c] + rest) == Prepend(c, Split(rest))
  {
    assert ([c] + rest)[0] == c && ([c] + rest)[1..] == rest;
  }

  lemma PrependConcat(c: char, parts: seq<string>, more: seq<string>)
    requires parts != []
    ensures Prepend(c, parts + more) == Prepend(c, parts) + more
  {
    var all := parts + more;
    if c == '/' {
      assert [""] + all == ([""] + parts) + more;
    } else {
      assert all[0] == parts[0] && all[1..] == parts[1..] + more;
    }
  }

  lemma {:induction false} SplitAtSlash(p: string, q: string)
    ensures Split(p + "/" + q) == Split(p) + Split(q)
  {
    if p == "" {
      assert p + "/" + q == "/" + q;
      SplitRooted(q);
    } else {
      var c, rest := p[0], p[1..];
      SplitAtSlash(rest, q);
      assert Split(p) == Prepend(c, Split(rest)) by {
        SplitStep(c, rest);
        assert p == [c] + rest;
      }
      assert Split(p + "/" + q) == Prepend(c, Split(rest + "/" + q)) by {
        SplitStep(c, rest + "/" + q);
        assert p + "/" + q == [c] + (rest + "/" + q);
      }
      PrependConcat(c, Split(rest), Split(q));
    }
  }

  lemma {:induction false} ResolveConcat(a: seq<string>, b: seq<string>, stack: seq<string>, rooted: bool)
    ensures Resolve(a + b, stack, rooted) == Resolve(b, Resolve(a, stack, rooted), rooted)
    decreases |a|
  {
    if a == [] {
      assert a + b == b;
    } else {
      var part := a[0];
      assert (a + b)[0] == part && (a + b)[1..] == a[1..] + b;
      if part == "" || part == "." {
        ResolveConcat(a[1..], b, stack, rooted);
      } else if part == ".." {
        if stack != [] && stack[|stack| - 1] != ".." {
          ResolveConcat(a[1..], b, stack[..|stack| - 1], rooted);
        } else {
          ResolveConcat(a[1..], b, if rooted then stack else stack + [".."], rooted);
        }
      } else {
        ResolveConcat(a[1..], b, stack + [part], rooted);
      }
    }
  }

  predicate IsName(part: string) {
    '/' !in part && part != "" && part != "." && part != ".."
  }

  lemma SplitName(part: string)
    requires '/' !in part
    ensures Split(part) == [part]
  {
    SplitJoin([part]);
  }

  /** How one more part changes a path: a name is added, "." and an empty part are dropped, ".." cancels a name. */
  lemma CleanOneMore(p: string, name: string)
    requires p != "" && IsName(name)
    ensures Resolved(p + "/" + name) == Resolved(p) + [name]
    ensures Clean(p + "/" + name + "/..") == Clean(p)
    ensures Clean(p + "/.") == Clean(p) && Clean(p + "/") == Clean(p)
  {
    var parts, rooted := Split(p), Rooted(p);
    var stack := Resolve(parts, [], rooted);
    SplitAtSlash(p, name);
    SplitName(name);
    ResolveConcat(parts, [name], [], rooted);
    assert Resolve([name], stack, rooted) == Resolve([], stack + [name], rooted) == stack + [name];
    SplitAtSlash(p + "/" + name, "..");
    SplitName("..");
    ResolveConcat(Split(p + "/" + name), [".."], [], rooted);
    assert Resolve([".."], stack + [name], rooted) == Resolve([], (stack + [name])[..|stack|], rooted);
    assert (stack + [name])[..|stack|] == stack;
    assert p + "/" + name + "/.." == (p + "/" + name) + "/" + "..";
    assert p + "/." == p + "/" + ".";
    SplitAtSlash(p, ".");
    SplitName(".");
    ResolveConcat(parts, ["."], [], rooted);
    assert Resolve(["."], stack, rooted) == Resolve([], stack, rooted);
    CleanIgnoresTrailingSlash(p);
  }

  /** Nothing lies above the root; above the start of a relative path ".." stays. */
  lemma CleanAboveStart()
    ensures Clean("/") == "/" && Clean("/..") == "/"
    ensures Clean("..") == ".." && Clean("../..") == "../.."
  {
    CleanOfNormal([], true);
    assert "/" + Join([]) == "/";
    SplitAtSlash("", "..");
    SplitName("..");
    SplitName("");
    assert "" + "/" + ".." == "/..";
    assert Split("/..") == ["", ".."] && ["", ".."][1..] == [".."] && [".."][1..] == [];
    CleanOfNormal([".."], false);
    CleanOfNormal(["..", ".."], false);
    assert Join([".."]) == ".." && ["..", ".."][1..] == [".."];
    assert Join(["..", ".."]) == ".." + "/" + ".." == "../..";
  }

  /** Cleaning keeps a path rooted or not. */
  lemma CleanKeepsRooted(p: string)
    ensures Rooted(Clean(p)) == Rooted(p)
  {
    ResolvedIsNormal(p);
    if !Rooted(p) && Resolved(p) != [] {
      JoinStartsWithFirst(Resolved(p));
      assert Resolved(p)[0][0] in Resolved(p)[0];
    }
  }

  /** Only a rooted path can have the root as its directory. */
  lemma RootedIfDirIsRoot(p: string)
    requires Dir(p) == "/"
    ensures Rooted(p)
  {
    CleanKeepsRooted(UpToLastSlash(p));
    UpToLastSlashIsPrefix(p);
  }

  // ---------- Keys as component lists ----------

  ghost predicate Components(cs: seq<string>) {
    Normal(cs, true)
  }

  function Terminated(cs: seq<string>): string {
    if cs == [] then "" else cs[0] + "/" + Terminated(cs[1..])
  }

  function DirKey(cs: seq<string>): string {
    "/" + Terminated(cs)
  }

  function FileKey(cs: seq<string>): string {
    "/" + Join(cs)
  }

  lemma {:induction false} TerminatedIsJoin(cs: seq<string>)
    requires cs != []
    ensures Terminated(cs) == Join(cs) + "/"
  {
    if |cs| == 1 {
      assert Terminated(cs[1..]) == "";
      assert cs[0] + "/" + "" == cs[0] + "/";
    } else {
      TerminatedIsJoin(cs[1..]);
      assert cs[0] + "/" + (Join(cs[1..]) + "/") == cs[0] + "/" + Join(cs[1..]) + "/";
    }
  }

  lemma DirKeyIsFileKeySlash(cs: seq<string>)
    ensures DirKey(cs) == if cs == [] then "/" else FileKey(cs) + "/"
  {
    if cs != [] {
      TerminatedIsJoin(cs);
      assert "/" + (Join(cs) + "/") == "/" + Join(cs) + "/";
    }
  }

  /** Both spellings of a rooted path resolve to its components. */
  lemma ResolvedKeys(cs: seq<string>)
    requires Components(cs)
    ensures Resolved(FileKey(cs)) == cs && Clean(FileKey(cs)) == FileKey(cs)
    ensures Resolved(DirKey(cs)) == cs && Clean(DirKey(cs)) == FileKey(cs)
    ensures DirectoryArgument(DirKey(cs)) == DirKey(cs) == DirectoryArgument(FileKey(cs))
  {
    CleanOfNormal(cs, true);
    DirKeyIsFileKeySlash(cs);
    var f := FileKey(cs);
    if cs == [] {
      assert f == "/";
    } else {
      SplitTrailingSlash(f);
      ResolveIgnoresTrailingEmpty(Split(f), [], true);
      JoinStartsWithFirst(cs);
      assert |f| > 1;
      assert f + "/" != "/";
    }
  }

  lemma KeysAreInjective(a: seq<string>, b: seq<string>)
    requires Components(a) && Components(b)
    ensures DirKey(a) == DirKey(b) ==> a == b
    ensures FileKey(a) == FileKey(b) ==> a == b
  {
    ResolvedKeys(a);
    ResolvedKeys(b);
  }

  lemma {:induction false} TerminatedSnoc(cs: seq<string>, c: string)
    ensures Terminated(cs + [c]) == Terminated(cs) + c + "/"
  {
    if cs == [] {
      assert cs + [c] == [c];
      assert [c][1..] == [];
      assert c + "/" + "" == "" + c + "/";
    } else {
      TerminatedSnoc(cs[1..], c);
      assert (cs + [c])[1..] == cs[1..] + [c];
      assert cs[0] + "/" + (Terminated(cs[1..]) + c + "/") == cs[0] + "/" + Terminated(cs[1..]) + c + "/";
    }
  }

  lemma {:induction false} UpToLastSlashOf(a: string, name: string)
    requires '/' !in name
    ensures UpToLastSlash(a + "/" + name) == a + "/"
    decreases |name|
  {
    var p := a + "/" + name;
    if name == "" {
      assert p == a + "/";
    } else {
      assert p[|p| - 1] == name[|name| - 1];
      assert name[|name| - 1] in name;
      UpToLastSlashOf(a, name[..|name| - 1]);
      assert p[..|p| - 1] == a + "/" + name[..|name| - 1];
    }
  }

  /** A file's parent key is the directory key of all its components but the last. */
  lemma ParentKeyOfFile(cs: seq<string>)
    requires Components(cs) && cs != []
    ensures ParentKey(FileKey(cs)) == DirKey(cs[..|cs| - 1])
  {
    var up, name := cs[..|cs| - 1], cs[|cs| - 1];
    assert cs == up + [name];
    assert Components(up);
    FileKeySnoc(up, name);
    DirKeyIsFileKeySlash(up);
    ResolvedKeys(up);
    var a := if up == [] then "" else FileKey(up);
    assert DirKey(up) == a + "/";
    UpToLastSlashOf(a, name);
    if up != [] {
      JoinStartsWithFirst(up);
    }
  }

  lemma FileKeySnoc(up: seq<string>, name: string)
    ensures FileKey(up + [name]) == DirKey(up) + name
  {
    TerminatedSnoc(up, name);
    TerminatedIsJoin(up + [name]);
    var j, t := Join(up + [name]), Terminated(up) + name;
    assert j + "/" == t + "/";
    assert j == (j + "/")[..|j|] == (t + "/")[..|t|] == t;
    assert "/" + (Terminated(up) + name) == "/" + Terminated(up) + name;
  }

  /** path.Base names a file or directory by its last component, with or without the trailing slash. */
  lemma BaseOfKeys(up: seq<string>, name: string)
    requires Components(up + [name])
    ensures Base(FileKey(up + [name])) == name && Base(DirKey(up + [name])) == name
  {
    var all := up + [name];
    assert all[|up|] == name;
    FileKeySnoc(up, name);
    DirKeyIsFileKeySlash(up);
    var a := if up == [] then "" else FileKey(up);
    var f := FileKey(all);
    assert DirKey(up) == a + "/" && f == a + "/" + name;
    UpToLastSlashOf(a, name);
    assert f[|f| - 1] == name[|name| - 1] && name[|name| - 1] in name;
    assert TrimSlashes(f) == f;
    DirKeyIsFileKeySlash(all);
    assert (f + "/")[..|f + "/"| - 1] == f;
    assert TrimSlashes(f + "/") == TrimSlashes(f);
  }

  /** String prefix of directory keys is exactly component-wise descent. */
  lemma {:induction false} PrefixIsDescent(a: seq<string>, b: seq<string>)
    requires NoSlash(a) && NoSlash(b)
    ensures Terminated(b) <= Terminated(a) <==> b <= a
    decreases |b|
  {
    if b != [] && a != [] {
      var c, d, ta, tb := a[0], b[0], Terminated(a[1..]), Terminated(b[1..]);
      assert Terminated(a) == c + "/" + ta && Terminated(b) == d + "/" + tb;
      PrefixIsDescent(a[1..], b[1..]);
      if c == d {
        assert Terminated(a)[|c| + 1..] == ta && Terminated(b)[|c| + 1..] == tb;
        if tb <= ta {
          assert Terminated(b) <= Terminated(a);
        }
        assert b[1..] <= a[1..] <==> b <= a;
      } else if Terminated(b) <= Terminated(a) {
        HeadsAgree(c, d, ta, tb);
      }
    }
  }

  lemma HeadsAgree(c: string, d: string, ta: string, tb: string)
    requires '/' !in c && '/' !in d
    requires d + "/" + tb <= c + "/" + ta
    ensures c == d
  {
    var x, y := c + "/" + ta, d + "/" + tb;
    var z := x[|y|..];
    assert x == c + ("/" + ta) && x == d + ("/" + tb + z);
    SplitOfConcat(c, "/" + ta);
    SplitOfConcat(d, "/" + tb + z);
    assert Split(x)[0] == c + "" == c;
    assert Split(x)[0] == d + "" == d;
  }

  /** HasPrefix(DirKey(a), DirKey(b)) */
  lemma KeyPrefixIsDescent(a: seq<string>, b: seq<string>)
    requires Components(a) && Components(b)
    ensures DirKey(b) <= DirKey(a) <==> b <= a
  {
    PrefixIsDescent(a, b);
    assert DirKey(a)[1..] == Terminated(a) && DirKey(b)[1..] == Terminated(b);
    assert DirKey(b) <= DirKey(a) <==> Terminated(b) <= Terminated(a);
  }

  function SlashCount(s: string): nat {
    if s == "" then 0 else (if s[0] == '/' then 1 else 0) + SlashCount(s[1..])
  }

  lemma {:induction false} SlashCountOf(c: string, s: string)
    requires '/' !in c
    ensures SlashCount(c + "/" + s) == 1 + SlashCount(s)
  {
    if c == "" {
      assert (c + "/" + s)[1..] == s;
    } else {
      SlashCountOf(c[1..], s);
      assert (c + "/" + s)[1..] == c[1..] + "/" + s;
    }
  }

  /** The slashes left after a directory's key count the levels below it. */
  lemma {:induction false} SlashesCountLevels(a: seq<string>, b: seq<string>)
    requires NoSlash(a) && b <= a
    ensures Terminated(b) <= Terminated(a)
    ensures SlashCount(Terminated(a)[|Terminated(b)|..]) == |a| - |b|
    decreases |a|
  {
    PrefixIsDescent(a, b);
    if a != [] {
      var rest := a[1..];
      assert Terminated(a) == a[0] + "/" + Terminated(rest);
      if b == [] {
        SlashesCountLevels(rest, []);
        SlashCountOf(a[0], Terminated(rest));
        assert Terminated(a)[0..] == Terminated(a) && Terminated(rest)[0..] == Terminated(rest);
      } else {
        SlashesCountLevels(rest, b[1..]);
        var k := |a[0]| + 1;
        assert Terminated(b) == b[0] + "/" + Terminated(b[1..]);
        assert Terminated(a)[k..] == Terminated(rest);
        assert Terminated(a)[|Terminated(b)|..] == Terminated(rest)[|Terminated(b[1..])|..];
      }
    }
  }
}
