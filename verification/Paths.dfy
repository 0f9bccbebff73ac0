/** Absolute paths as lists of names: resolving, rendering, and the containment check made on strings. */
module Paths {

  type Path = seq<string>

  /** A name that stays where it is: no separator, and neither empty nor a dot name. */
  predicate PlainName(name: string) {
    name != "" && name != "." && name != ".." && '/' !in name
  }

  predicate Plain(path: Path) {
    forall i :: 0 <= i < |path| ==> PlainName(path[i])
  }

  /** The stretches between separators. */
  function Segments(text: string): (segments: seq<string>)
    ensures segments != [] && forall i :: 0 <= i < |segments| ==> '/' !in segments[i]
  {
    if text == "" then [""]
    else
      var rest := Segments(text[1..]);
      if text[0] == '/' then [""] + rest else [[text[0]] + rest[0]] + rest[1..]
  }

  function Normalized(base: Path, segments: seq<string>): (path: Path)
    requires Plain(base) && forall i :: 0 <= i < |segments| ==> '/' !in segments[i]
    ensures Plain(path)
    decreases |segments|
  {
    if segments == [] then base
    else
      var name := segments[0];
      var next :=
        if name == "" || name == "." then base
        else if name == ".." then (if base == [] then [] else base[..|base| - 1])
        else base + [name];
      Normalized(next, segments[1..])
  }

  /** path.resolve: each argument is taken from the result before it, or from the root if it starts with one. */
  function Resolve(cwd: Path, arguments: seq<string>): (path: Path)
    requires Plain(cwd)
    ensures Plain(path)
    decreases |arguments|
  {
    if arguments == [] then cwd
    else
      var start := if arguments[0] != "" && arguments[0][0] == '/' then [] else cwd;
      Resolve(Normalized(start, Segments(arguments[0])), arguments[1..])
  }

  function Below(path: Path): string {
    if path == [] then "" else "/" + path[0] + Below(path[1..])
  }

  function Render(path: Path): string {
    if path == [] then "/" else Below(path)
  }

  predicate Inside(path: Path, root: Path) {
    |root| < |path| && root == path[..|root|]
  }

  /** The check made before writing: the target's text starts with the root's text and a separator. */
  predicate StartsBelow(target: Path, root: Path) {
    Render(root) + "/" <= Render(target)
  }

  lemma {:induction false} FirstNameAgrees(name: string, rest: string, name': string, rest': string)
    requires '/' !in name && '/' !in name'
    requires rest != "" && rest[0] == '/' && (rest' == "" || rest'[0] == '/')
    ensures name + rest <= name' + rest' <==> name == name' && rest <= rest'
  {
    var a, b := name + rest, name' + rest';
    if name == "" || name' == "" {
      if name == "" && name' == "" {
        assert a == rest && b == rest';
      } else if b != "" {
        assert a[0] != b[0];
      }
    } else {
      FirstNameAgrees(name[1..], rest, name'[1..], rest');
      assert a == [name[0]] + (name[1..] + rest) && b == [name'[0]] + (name'[1..] + rest');
      assert a[1..] == name[1..] + rest && b[1..] == name'[1..] + rest';
      assert name == [name[0]] + name[1..] && name' == [name'[0]] + name'[1..];
      if a <= b {
        assert a[1..] <= b[1..];
      }
    }
  }

  lemma InsideOneDown(root: Path, target: Path)
    requires root != [] && target != []
    ensures Inside(target, root) <==> root[0] == target[0] && Inside(target[1..], root[1..])
  {
    assert root == [root[0]] + root[1..] && target == [target[0]] + target[1..];
    if Inside(target, root) {
      assert target[1..][..|root| - 1] == root[1..];
    }
    if root[0] == target[0] && Inside(target[1..], root[1..]) {
      assert target[..|root|] == [target[0]] + target[1..][..|root| - 1];
    }
  }

  lemma {:induction false} BelowPrefix(root: Path, target: Path)
    requires Plain(root) && Plain(target)
    ensures Below(root) + "/" <= Below(target) <==> Inside(target, root)
  {
    if root == [] {
      assert Below(root) + "/" == "/";
    } else if target != [] {
      hide Inside, Below;
      BelowPrefix(root[1..], target[1..]);
      BelowOneDown(root, target);
      InsideOneDown(root, target);
    }
  }

  lemma BelowOneDown(root: Path, target: Path)
    requires Plain(root) && Plain(target) && root != [] && target != []
    ensures Below(root) + "/" <= Below(target) <==> root[0] == target[0] && Below(root[1..]) + "/" <= Below(target[1..])
  {
    hide Below;
    BelowStarts(target[1..]);
    BelowStarts(root[1..]);
    BelowUnfolds(root);
    BelowUnfolds(target);
    assert PlainName(root[0]) && PlainName(target[0]);
    NamesOneDown(root[0], Below(root[1..]), target[0], Below(target[1..]));
  }

  lemma NamesOneDown(name: string, below: string, name': string, below': string)
    requires '/' !in name && '/' !in name'
    requires (below + "/")[0] == '/' && (below' == "" || below'[0] == '/')
    ensures "/" + name + below + "/" <= "/" + name' + below' <==> name == name' && below + "/" <= below'
  {
    FirstNameAgrees(name, below + "/", name', below');
    assert "/" + name + below + "/" == "/" + (name + (below + "/"));
    assert "/" + name' + below' == "/" + (name' + below');
    SameStart("/" + name + below + "/", "/" + name' + below', name + (below + "/"), name' + below');
  }

  lemma BelowUnfolds(path: Path)
    requires path != []
    ensures Below(path) == "/" + path[0] + Below(path[1..])
  {
  }

  lemma BelowStarts(path: Path)
    ensures Below(path) == "" || Below(path)[0] == '/'
    ensures (Below(path) + "/")[0] == '/'
  {
  }

  lemma SameStart(a: string, b: string, a': string, b': string)
    requires a == "/" + a' && b == "/" + b'
    ensures a <= b <==> a' <= b'
  {
    assert a[1..] == a' && b[1..] == b';
    if a <= b {
      assert a[1..] <= b[1..];
    }
  }

  /** The string check decides containment exactly, except that below the file system root it passes nothing. */
  lemma StringCheckExact(target: Path, root: Path)
    requires Plain(root) && Plain(target)
    ensures StartsBelow(target, root) <==> root != [] && Inside(target, root)
  {
    if root == [] {
      assert Render(root) + "/" == "//";
      if target != [] {
        assert Render(target)[1] == target[0][0];
      }
    } else if target == [] {
      assert Below(root)[0] == '/';
      assert |Below(root)| >= 1 + |root[0]|;
    } else {
      BelowPrefix(root, target);
    }
  }

  lemma {:induction false} OneSegment(name: string)
    requires '/' !in name
    ensures Segments(name) == [name]
  {
    if name != "" {
      OneSegment(name[1..]);
      assert [name[0]] + name[1..] == name;
    }
  }

  lemma ResolveStep(base: Path, name: string, more: seq<string>)
    requires Plain(base) && PlainName(name)
    ensures Resolve(base, [name] + more) == Resolve(base + [name], more)
  {
    OneSegment(name);
    assert ([name] + more)[1..] == more && [name][1..] == [] && name[0] in name;
    assert Normalized(base, [name]) == Normalized(base + [name], []);
  }

  /** Two plain names after an argument lead two steps further down. */
  lemma ResolveBelow(cwd: Path, first: string, second: string, third: string)
    requires Plain(cwd) && PlainName(second) && PlainName(third)
    ensures Resolve(cwd, [first, second, third]) == Resolve(cwd, [first]) + [second, third]
  {
    hide Segments, Normalized;
    var base := Resolve(cwd, [first]);
    assert [first, second, third][1..] == [second] + [third] && [first][1..] == [];
    assert [third] == [third] + [];
    ResolveStep(base, second, [third]);
    ResolveStep(base + [second], third, []);
  }

  lemma {:induction false} TwoSegments(folder: string, leaf: string)
    requires '/' !in folder && '/' !in leaf
    ensures Segments(folder + "/" + leaf) == [folder, leaf]
  {
    var text := folder + "/" + leaf;
    if folder == "" {
      assert text[1..] == leaf;
      OneSegment(leaf);
    } else {
      assert text[1..] == folder[1..] + "/" + leaf;
      TwoSegments(folder[1..], leaf);
      assert [folder[0]] + folder[1..] == folder;
    }
  }

  /** A path of two plain names under a plain one leads three steps further down. */
  lemma ResolveDeeper(cwd: Path, first: string, second: string, folder: string, leaf: string)
    requires Plain(cwd) && PlainName(second) && PlainName(folder) && PlainName(leaf)
    ensures Resolve(cwd, [first, second, folder + "/" + leaf]) == Resolve(cwd, [first]) + [second, folder, leaf]
  {
    hide Segments, Normalized;
    var base, path := Resolve(cwd, [first]), folder + "/" + leaf;
    assert [first, second, path][1..] == [second] + [path] && [first][1..] == [];
    ResolveStep(base, second, [path]);
    ResolveFolder(base + [second], folder, leaf);
    assert base + [second] + [folder, leaf] == base + [second, folder, leaf];
  }

  lemma ResolveFolder(base: Path, folder: string, leaf: string)
    requires Plain(base) && PlainName(folder) && PlainName(leaf)
    ensures Resolve(base, [folder + "/" + leaf]) == base + [folder, leaf]
  {
    TwoSegments(folder, leaf);
    var path := folder + "/" + leaf;
    var arguments: seq<string> := [path];
    assert arguments[1..] == [] && path[0] == folder[0] && folder[0] in folder;
    assert [folder, leaf][1..] == [leaf] && [leaf][1..] == [];
    assert Normalized(base, [folder, leaf]) == Normalized(base + [folder], [leaf]);
    assert Normalized(base + [folder], [leaf]) == base + [folder] + [leaf];
  }
}
