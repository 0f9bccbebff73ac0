/** A file system with symbolic links, and the calls the recovery tool makes on it. */
module Disk {
  import opened Bytes
  import opened Paths

  /** Keys are physical locations. The root directory exists without being listed. */
  datatype Disk = Disk(files: map<Path, bytes>, dirs: set<Path>, links: map<Path, string>)

  const MAX_LINKS: nat := 40

  function Parent(path: Path): Path {
    if path == [] then [] else path[..|path| - 1]
  }

  /** Walks `todo` from the physical directory `at`, through at most `fuel` links; gives what fuel is left. */
  function Follow(links: map<Path, string>, at: Path, todo: seq<string>, fuel: nat): Option<(Path, nat)>
    decreases fuel, |todo|
  {
    if todo == [] then Some((at, fuel))
    else if todo[0] == "" || todo[0] == "." then Follow(links, at, todo[1..], fuel)
    else if todo[0] == ".." then Follow(links, Parent(at), todo[1..], fuel)
    else
      var next := at + [todo[0]];
      if next !in links then Follow(links, next, todo[1..], fuel)
      else if fuel == 0 then None
      else
        var target := links[next];
        Follow(links, if target != "" && target[0] == '/' then [] else at, Segments(target) + todo[1..], fuel - 1)
  }

  /** Where a path leads when every link on the way is followed. */
  function Physical(links: map<Path, string>, path: Path): Option<Path> {
    match Follow(links, [], path, MAX_LINKS)
    case None => None
    case Some((at, _)) => Some(at)
  }

  /** Where a path's own entry is: its last name is not followed. */
  function Slot(links: map<Path, string>, path: Path): Option<Path> {
    if path == [] then Some([])
    else
      match Physical(links, Parent(path))
      case None => None
      case Some(at) => Some(at + [path[|path| - 1]])
  }

  predicate IsDir(d: Disk, at: Path) {
    at == [] || at in d.dirs
  }

  /** mkdir with parents: it fails where a file is in the way. */
  function MakeDirs(d: Disk, path: Path): Option<Disk> {
    match Physical(d.links, path)
    case None => None
    case Some(at) =>
      if exists k :: 0 <= k <= |at| && at[..k] in d.files then None
      else Some(d.(dirs := d.dirs + set k | 0 <= k <= |at| :: at[..k]))
  }

  /** Where opening a path for writing puts the bytes. */
  function WritableAt(d: Disk, path: Path): Option<Path> {
    match Physical(d.links, path)
    case None => None
    case Some(at) => if IsDir(d, at) || !IsDir(d, Parent(at)) then None else Some(at)
  }

  /** Forced removal of one entry; nothing happens to a directory or to what is not there. */
  function Removed(d: Disk, path: Path): Disk {
    match Slot(d.links, path)
    case None => d
    case Some(at) => if IsDir(d, at) then d else d.(files := d.files - {at}, links := d.links - {at})
  }

  /** A rename replaces the target's entry, unless that is a directory. */
  function Renamed(d: Disk, from: Path, to: Path): Option<Disk> {
    match (Slot(d.links, from), Slot(d.links, to))
    case (Some(source), Some(target)) =>
      if source !in d.files || IsDir(d, target) then None
      else Some(d.(files := (d.files - {source})[target := d.files[source]], links := d.links - {target}))
    case _ => None
  }

  /** A new link; it fails where an entry already is, or where the parent is no directory. */
  function Linked(d: Disk, path: Path, target: string): Option<Disk> {
    match Slot(d.links, path)
    case None => None
    case Some(at) =>
      if IsDir(d, at) || at in d.files || at in d.links || !IsDir(d, Parent(at)) then None
      else Some(d.(links := d.links[at := target]))
  }

  // ------------------------------------------------------------ without links

  /** No link strictly below a physical directory. */
  ghost predicate NoLinksBelow(links: map<Path, string>, root: Path) {
    forall at :: at in links ==> !Inside(at, root)
  }

  lemma {:induction false} FollowInTwo(links: map<Path, string>, at: Path, first: seq<string>, second: seq<string>,
                                       fuel: nat)
    ensures Follow(links, at, first + second, fuel) ==
            match Follow(links, at, first, fuel)
            case None => None
            case Some((mid, left)) => Follow(links, mid, second, left)
    decreases fuel, |first|
  {
    if first == [] {
      assert first + second == second;
    } else {
      assert (first + second)[1..] == first[1..] + second;
      var next := at + [first[0]];
      if first[0] == "" || first[0] == "." {
        FollowInTwo(links, at, first[1..], second, fuel);
      } else if first[0] == ".." {
        FollowInTwo(links, Parent(at), first[1..], second, fuel);
      } else if next !in links {
        FollowInTwo(links, next, first[1..], second, fuel);
      } else if fuel > 0 {
        var target := links[next];
        var from := if target != "" && target[0] == '/' then [] else at;
        FollowInTwo(links, from, Segments(target) + first[1..], second, fuel - 1);
        assert Segments(target) + (first[1..] + second) == (Segments(target) + first[1..]) + second;
      }
    }
  }

  lemma {:induction false} FollowPlain(links: map<Path, string>, root: Path, done: Path, names: Path, fuel: nat)
    requires NoLinksBelow(links, root) && Plain(names)
    ensures Follow(links, root + done, names, fuel) == Some((root + done + names, fuel))
    decreases |names|
  {
    if names == [] {
      assert root + done + names == root + done;
    } else {
      assert PlainName(names[0]);
      var next := root + done + [names[0]];
      assert Inside(next, root) by {
        assert next[..|root|] == root;
      }
      FollowPlain(links, root, done + [names[0]], names[1..], fuel);
      assert root + (done + [names[0]]) == next;
      assert next + names[1..] == root + done + names;
    }
  }

  /** Below a directory without links a path leads exactly where its names say. */
  lemma PhysicalBelow(links: map<Path, string>, root: Path, at: Path, names: Path)
    requires Physical(links, root) == Some(at) && NoLinksBelow(links, at) && Plain(names)
    ensures Physical(links, root + names) == Some(at + names)
    ensures names != [] ==> Slot(links, root + names) == Some(at + names)
  {
    FollowInTwo(links, [], root, names, MAX_LINKS);
    var left := Follow(links, [], root, MAX_LINKS).value.1;
    FollowPlain(links, at, [], names, left);
    assert at + [] == at;
    if names != [] {
      var upper := names[..|names| - 1];
      assert Parent(root + names) == root + upper;
      FollowInTwo(links, [], root, upper, MAX_LINKS);
      FollowPlain(links, at, [], upper, left);
      assert at + upper + [names[|names| - 1]] == at + names;
    }
  }
}
