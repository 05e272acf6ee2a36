/** Discovery of executable test cases (`isExecutable` and `parsePaths` in snapshot.go).
    The filesystem is a tree: what `os.Stat` and `os.ReadDir` report for each path. */
module Discovery {
  import opened Wrappers

  /** What the filesystem holds at one path. */
  datatype Node =
    | File(mode: bv32)                // os.Stat succeeds on a non-directory with these mode bits
    | Dir(listing: seq<DirEntry>)     // os.Stat succeeds on a directory; os.ReadDir lists these entries
                                      // (in name order in Go; the model accepts any order)
    | UnreadableDir(readErr: string)  // os.Stat succeeds on a directory; os.ReadDir fails
    | StatFailure(statErr: string)    // os.Stat fails

  /** One entry of a directory listing, under its base name. */
  datatype DirEntry = DirEntry(name: string, node: Node)

  /** A path handed to discovery, together with what the filesystem holds there. */
  datatype Target = Target(path: string, node: Node)

  /** `filepath.Join` and `filepath.Abs`, left uninterpreted; `abs` may fail. */
  datatype PathOps = PathOps(join: (string, string) -> string, abs: string -> Result<string, string>)

  /** `info.IsDir()`. */
  predicate IsDir(n: Node) {
    n.Dir? || n.UnreadableDir?
  }

  /** The permission test of `isExecutable`: `mode & 0111 != 0` (octal 0111 is 0x49). */
  predicate IsExecutable(mode: bv32) {
    mode & 0x49 != 0
  }

  /** The test accepts a file executable by any one of user, group or other, not only by all three. */
  lemma ExecutableIffAnyExecuteBit(mode: bv32)
    ensures IsExecutable(mode) <==> mode & 0x40 != 0 || mode & 0x08 != 0 || mode & 0x01 != 0
    ensures IsExecutable(0x1c0)  // rwx------: executable by its owner only
  {
  }

  // ---------------------------------------------------------------------------------------
  // Sizes, for termination

  function Size(n: Node): nat
    decreases n, 1
  {
    match n
    case Dir(listing) => 1 + ListingSize(listing)
    case _ => 1
  }

  function ListingSize(l: seq<DirEntry>): nat
    decreases l, 0
  {
    if l == [] then 0 else ListingSize(l[..|l| - 1]) + Size(l[|l| - 1].node)
  }

  /** The summed sizes of the nodes of `ts`. */
  function SizeAll(ts: seq<Target>): nat {
    if ts == [] then 0 else SizeAll(ts[..|ts| - 1]) + Size(ts[|ts| - 1].node)
  }

  lemma {:induction false} SizeAllAppend(ts: seq<Target>, us: seq<Target>)
    ensures SizeAll(ts + us) == SizeAll(ts) + SizeAll(us)
  {
    if us == [] {
      assert ts + us == ts;
    } else {
      var init := us[..|us| - 1];
      SizeAllAppend(ts, init);
      assert (ts + us)[..|ts + us| - 1] == ts + init;
    }
  }

  // ---------------------------------------------------------------------------------------
  // The specification of parsePaths

  /** The paths `parsePaths` hands to its recursive call for a directory at `dir`: each entry's
      name joined to `dir`, in listing order. */
  function Children(ops: PathOps, dir: string, listing: seq<DirEntry>): (ts: seq<Target>)
    ensures |ts| == |listing|
    ensures forall i :: 0 <= i < |listing| ==> ts[i] == Target(ops.join(dir, listing[i].name), listing[i].node)
  {
    if listing == [] then []
    else
      var e := listing[|listing| - 1];
      Children(ops, dir, listing[..|listing| - 1]) + [Target(ops.join(dir, e.name), e.node)]
  }

  lemma {:induction false} ChildrenSize(ops: PathOps, dir: string, listing: seq<DirEntry>)
    ensures SizeAll(Children(ops, dir, listing)) == ListingSize(listing)
  {
    if listing != [] {
      var cs := Children(ops, dir, listing);
      ChildrenSize(ops, dir, listing[..|listing| - 1]);
      assert cs[..|cs| - 1] == Children(ops, dir, listing[..|listing| - 1]);
    }
  }

  /** Sequencing of two discovery steps: the first error wins, otherwise the paths found are concatenated. */
  function Then(a: Result<seq<string>, string>, b: Result<seq<string>, string>): Result<seq<string>, string> {
    match a
    case Failure(_) => a
    case Success(found) =>
      match b
      case Failure(e) => Failure(e)
      case Success(more) => Success(found + more)
  }

  lemma ThenAssociative(a: Result<seq<string>, string>, b: Result<seq<string>, string>, c: Result<seq<string>, string>)
    ensures Then(Then(a, b), c) == Then(a, Then(b, c))
  {
    if a.Success? && b.Success? && c.Success? {
      assert (a.value + b.value) + c.value == a.value + (b.value + c.value);
    }
  }

  lemma ThenIdentity(a: Result<seq<string>, string>)
    ensures Then(Success([]), a) == a
    ensures Then(a, Success([])) == a
  {
    if a.Success? {
      assert [] + a.value == a.value + [] == a.value;
    }
  }

  /** What a path contributes on its own, leaving aside what a directory's entries contribute:
      a stat or ReadDir error, the absolute path of an executable non-directory (or the error of
      `filepath.Abs`), or nothing. */
  function Visit(ops: PathOps, t: Target): Result<seq<string>, string> {
    match t.node
    case StatFailure(e) => Failure(e)
    case UnreadableDir(e) => Failure(e)
    case Dir(_) => Success([])
    case File(mode) =>
      if !IsExecutable(mode) then Success([])
      else
        match ops.abs(t.path)
        case Failure(e) => Failure(e)
        case Success(a) => Success([a])
  }

  /** `parsePaths(paths)`: the inputs in order, each directory replaced by what its entries yield. */
  function Discover(ops: PathOps, ts: seq<Target>): Result<seq<string>, string>
    decreases SizeAll(ts), 1
  {
    if ts == [] then Success([])
    else Then(Discover(ops, ts[..|ts| - 1]), DiscoverOne(ops, ts[|ts| - 1]))
  }

  /** What `parsePaths` yields for one input path. */
  function DiscoverOne(ops: PathOps, t: Target): Result<seq<string>, string>
    decreases Size(t.node), 0
  {
    match t.node
    case Dir(listing) =>
      ChildrenSize(ops, t.path, listing);
      Discover(ops, Children(ops, t.path, listing))
    case _ => Visit(ops, t)
  }

  /** The results for a list of paths are those of its two parts in order; an error in the first
      part hides everything after it. */
  lemma {:induction false} DiscoverAppend(ops: PathOps, ts: seq<Target>, us: seq<Target>)
    ensures Discover(ops, ts + us) == Then(Discover(ops, ts), Discover(ops, us))
  {
    if us == [] {
      assert ts + us == ts;
      ThenIdentity(Discover(ops, ts));
    } else {
      var init := us[..|us| - 1];
      assert (ts + us)[..|ts + us| - 1] == ts + init;
      DiscoverAppend(ops, ts, init);
      ThenAssociative(Discover(ops, ts), Discover(ops, init), DiscoverOne(ops, us[|us| - 1]));
    }
  }

  /** A directory contributes what its entries, joined to its path, contribute, in listing order. */
  lemma DiscoverDirectory(ops: PathOps, dir: string, listing: seq<DirEntry>)
    ensures Discover(ops, [Target(dir, Dir(listing))]) == Discover(ops, Children(ops, dir, listing))
  {
    ThenIdentity(DiscoverOne(ops, Target(dir, Dir(listing))));
  }

  // ---------------------------------------------------------------------------------------
  // A reference view: the reachable paths listed in pre-order, then scanned one by one

  /** Every path reachable from `ts`, directories included, each directory followed by its entries. */
  function Flatten(ops: PathOps, ts: seq<Target>): seq<Target>
    decreases SizeAll(ts), 1
  {
    if ts == [] then [] else Flatten(ops, ts[..|ts| - 1]) + FlattenOne(ops, ts[|ts| - 1])
  }

  function FlattenOne(ops: PathOps, t: Target): seq<Target>
    decreases Size(t.node), 0
  {
    match t.node
    case Dir(listing) =>
      ChildrenSize(ops, t.path, listing);
      [t] + Flatten(ops, Children(ops, t.path, listing))
    case _ => [t]
  }

  /** Visits a flat list of paths in order, stopping at the first error. */
  function Scan(ops: PathOps, fs: seq<Target>): Result<seq<string>, string> {
    if fs == [] then Success([]) else Then(Scan(ops, fs[..|fs| - 1]), Visit(ops, fs[|fs| - 1]))
  }

  lemma {:induction false} ScanAppend(ops: PathOps, fs: seq<Target>, gs: seq<Target>)
    ensures Scan(ops, fs + gs) == Then(Scan(ops, fs), Scan(ops, gs))
  {
    if gs == [] {
      assert fs + gs == fs;
      ThenIdentity(Scan(ops, fs));
    } else {
      var init := gs[..|gs| - 1];
      assert (fs + gs)[..|fs + gs| - 1] == fs + init;
      ScanAppend(ops, fs, init);
      ThenAssociative(Scan(ops, fs), Scan(ops, init), Visit(ops, gs[|gs| - 1]));
    }
  }

  /** The recursive descent of `parsePaths` equals a scan of the pre-order listing of everything
      reachable from its inputs. */
  lemma {:induction false} DiscoverIsPreorderScan(ops: PathOps, ts: seq<Target>)
    ensures Discover(ops, ts) == Scan(ops, Flatten(ops, ts))
    decreases SizeAll(ts), 1
  {
    if ts != [] {
      var init, t := ts[..|ts| - 1], ts[|ts| - 1];
      DiscoverIsPreorderScan(ops, init);
      DiscoverOneIsPreorderScan(ops, t);
      ScanAppend(ops, Flatten(ops, init), FlattenOne(ops, t));
    }
  }

  lemma {:induction false} DiscoverOneIsPreorderScan(ops: PathOps, t: Target)
    ensures DiscoverOne(ops, t) == Scan(ops, FlattenOne(ops, t))
    decreases Size(t.node), 0
  {
    assert Scan(ops, [t]) == Visit(ops, t) by {
      assert [t][..0] == [];
      ThenIdentity(Visit(ops, t));
    }
    match t.node
    case Dir(listing) =>
      var cs := Children(ops, t.path, listing);
      ChildrenSize(ops, t.path, listing);
      DiscoverIsPreorderScan(ops, cs);
      ScanAppend(ops, [t], Flatten(ops, cs));
      ThenIdentity(Scan(ops, Flatten(ops, cs)));
    case _ =>
  }

  /** A path is kept when it is a non-directory with an execute bit set. */
  predicate IsExecutableFile(t: Target) {
    t.node.File? && IsExecutable(t.node.mode)
  }

  /** The executable non-directories of `fs`, in order. */
  function ExecutableFiles(fs: seq<Target>): (ex: seq<Target>)
    ensures forall t :: t in ex <==> t in fs && IsExecutableFile(t)
  {
    if fs == [] then []
    else
      var t := fs[|fs| - 1];
      assert fs == fs[..|fs| - 1] + [t];
      ExecutableFiles(fs[..|fs| - 1]) + (if IsExecutableFile(t) then [t] else [])
  }

  lemma {:induction false} ScanOutputs(ops: PathOps, fs: seq<Target>)
    requires Scan(ops, fs).Success?
    ensures var out, ex := Scan(ops, fs).value, ExecutableFiles(fs);
      |out| == |ex| && forall j :: 0 <= j < |ex| ==> ops.abs(ex[j].path) == Success(out[j])
  {
    if fs != [] {
      var init := fs[..|fs| - 1];
      ScanOutputs(ops, init);
    }
  }

  lemma {:induction false} ScanFailure(ops: PathOps, fs: seq<Target>)
    ensures Scan(ops, fs).Failure? <==> exists k :: 0 <= k < |fs| && Visit(ops, fs[k]).Failure?
    ensures Scan(ops, fs).Failure? ==>
      exists k :: 0 <= k < |fs| && Visit(ops, fs[k]) == Scan(ops, fs) &&
        forall j :: 0 <= j < k ==> Visit(ops, fs[j]).Success?
  {
    if fs != [] {
      var init := fs[..|fs| - 1];
      ScanFailure(ops, init);
      assert forall k :: 0 <= k < |init| ==> fs[k] == init[k];
      if Scan(ops, init).Failure? {
        var k :| 0 <= k < |init| && Visit(ops, init[k]) == Scan(ops, init) &&
          forall j :: 0 <= j < k ==> Visit(ops, init[j]).Success?;
        assert Visit(ops, fs[k]) == Scan(ops, fs);
      } else if Visit(ops, fs[|fs| - 1]).Failure? {
        assert Visit(ops, fs[|fs| - 1]) == Scan(ops, fs);
      }
    }
  }

  /** On success, `parsePaths` returns the absolute forms of exactly the executable non-directories
      reachable from its inputs (never a directory), one for each, in pre-order. */
  lemma DiscoverOutputs(ops: PathOps, ts: seq<Target>)
    requires Discover(ops, ts).Success?
    ensures var out, ex := Discover(ops, ts).value, ExecutableFiles(Flatten(ops, ts));
      && |out| == |ex|
      && (forall j :: 0 <= j < |ex| ==> ex[j].node.File? && ops.abs(ex[j].path) == Success(out[j]))
  {
    DiscoverIsPreorderScan(ops, ts);
    ScanOutputs(ops, Flatten(ops, ts));
    var ex := ExecutableFiles(Flatten(ops, ts));
    assert forall j :: 0 <= j < |ex| ==> ex[j] in ex;
  }

  /** `parsePaths` fails exactly when some reachable path cannot be stat-ed or listed, or an
      executable's absolute path cannot be computed; it then reports the first such error in
      pre-order and no paths. */
  lemma DiscoverErrors(ops: PathOps, ts: seq<Target>)
    ensures var fs := Flatten(ops, ts);
      && (Discover(ops, ts).Failure? <==> exists k :: 0 <= k < |fs| && Visit(ops, fs[k]).Failure?)
      && (Discover(ops, ts).Failure? ==>
            exists k :: 0 <= k < |fs| && Visit(ops, fs[k]) == Discover(ops, ts) &&
              forall j :: 0 <= j < k ==> Visit(ops, fs[j]).Success?)
  {
    DiscoverIsPreorderScan(ops, ts);
    ScanFailure(ops, Flatten(ops, ts));
  }

  // ---------------------------------------------------------------------------------------
  // parsePaths

  /** Once a prefix of the inputs has failed, the rest of them do not matter. */
  lemma FailureIsFinal(ops: PathOps, ts: seq<Target>, n: nat)
    requires n <= |ts| && Discover(ops, ts[..n]).Failure?
    ensures Discover(ops, ts) == Discover(ops, ts[..n])
  {
    assert ts == ts[..n] + ts[n..];
    DiscoverAppend(ops, ts[..n], ts[n..]);
  }

  lemma SizeAllAt(ts: seq<Target>, i: nat)
    requires i < |ts|
    ensures Size(ts[i].node) <= SizeAll(ts)
  {
    assert ts == ts[..i] + [ts[i]] + ts[i + 1..];
    SizeAllAppend(ts[..i] + [ts[i]], ts[i + 1..]);
    SizeAllAppend(ts[..i], [ts[i]]);
    assert [ts[i]][..0] == [];
  }

  /** The loop of `parsePaths` that joins each directory entry's name to the directory's path. */
  method JoinEntries(ops: PathOps, dir: string, entries: seq<DirEntry>) returns (subPaths: seq<Target>)
    ensures subPaths == Children(ops, dir, entries)
  {
    subPaths := [];
    for j := 0 to |entries|
      invariant subPaths == Children(ops, dir, entries[..j])
    {
      assert entries[..j + 1][..j] == entries[..j];
      subPaths := subPaths + [Target(ops.join(dir, entries[j].name), entries[j].node)];
    }
    assert entries[..|entries|] == entries;
  }

  /** The loop of `parsePaths` that appends a recursive call's results to `out`, one at a time. */
  method AppendAll(out: seq<string>, found: seq<string>) returns (r: seq<string>)
    ensures r == out + found
  {
    r := out;
    for k := 0 to |found|
      invariant r == out + found[..k]
    {
      r := r + [found[k]];
    }
    assert found[..|found|] == found;
  }

  /** One iteration of the loop of `parsePaths`: stats the path, and either adds its absolute
      path (an executable non-directory), descends into it (a directory), skips it, or stops at
      the first stat, ReadDir or Abs error. */
  method ParseOne(ops: PathOps, t: Target) returns (r: Result<seq<string>, string>)
    ensures r == DiscoverOne(ops, t)
    decreases Size(t.node), 0
  {
    var path, info := t.path, t.node;
    if info.StatFailure? {
      return Failure(info.statErr);
    }
    if !IsDir(info) && IsExecutable(info.mode) {
      var absPath := ops.abs(path);
      if absPath.Failure? {
        return Failure(absPath.error);
      }
      return Success([absPath.value]);
    } else if IsDir(info) {
      if info.UnreadableDir? {
        return Failure(info.readErr);
      }
      var subPaths := JoinEntries(ops, path, info.listing);
      ChildrenSize(ops, path, info.listing);
      var parsedPaths := ParsePaths(ops, subPaths);
      if parsedPaths.Failure? {
        return Failure(parsedPaths.error);
      }
      return Success(parsedPaths.value);
    }
    return Success([]);
  }

  /** `parsePaths`: walks the inputs in order, appending what each one yields, and returns only
      an error at the first failing stat, ReadDir or Abs. */
  method ParsePaths(ops: PathOps, paths: seq<Target>) returns (r: Result<seq<string>, string>)
    ensures r == Discover(ops, paths)
    decreases SizeAll(paths), 1
  {
    var out: seq<string> := [];
    for i := 0 to |paths|
      invariant Discover(ops, paths[..i]) == Success(out)
    {
      assert paths[..i + 1][..i] == paths[..i];
      SizeAllAt(paths, i);
      var found := ParseOne(ops, paths[i]);
      if found.Failure? {
        FailureIsFinal(ops, paths, i + 1);
        return Failure(found.error);
      }
      out := AppendAll(out, found.value);
    }
    assert paths[..|paths|] == paths;
    return Success(out);
  }
}
