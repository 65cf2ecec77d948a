/** The open-file registry: one buffer per open path. */
module ApplicationStates {
  import opened Errors
  import opened Enums
  import opened Streams
  import opened Files
  import opened Buffers

  /** Files larger than this many bytes get a lazy buffer. */
  const LazyThreshold: int := 20 * 1024 * 1024

  function Paths(bs: seq<Buffer>): (ps: seq<string>)
    ensures |ps| == |bs| && forall i :: 0 <= i < |bs| ==> ps[i] == bs[i].fileInstance.filePath
  {
    if bs == [] then [] else [bs[0].fileInstance.filePath] + Paths(bs[1..])
  }

  predicate Distinct(ps: seq<string>)
  {
    forall i, j :: 0 <= i < j < |ps| ==> ps[i] != ps[j]
  }

  /** No two buffers share a path. */
  predicate DistinctPaths(bs: seq<Buffer>)
  {
    Distinct(Paths(bs))
  }

  /** `Exists(x => x.FileInstance.FilePath != p)`. */
  predicate HasOtherPath(bs: seq<Buffer>, p: string)
  {
    exists i :: 0 <= i < |bs| && bs[i].fileInstance.filePath != p
  }

  /** The buffer kind chosen for a file of `size` bytes. */
  function KindFor(size: int): (k: BufferType)
    ensures k == Lazy <==> size > LazyThreshold
  {
    if size > LazyThreshold then Lazy else Immediate
  }

  /** `First(x => x.FileInstance.FilePath == p)`: the index of the first buffer open
      at `p`, or -1 where `First` throws. */
  function FirstWithPath(bs: seq<Buffer>, p: string): (k: int)
    ensures -1 <= k < |bs|
    ensures k >= 0 ==> bs[k].fileInstance.filePath == p && forall i :: 0 <= i < k ==> bs[i].fileInstance.filePath != p
    ensures k == -1 ==> p !in Paths(bs)
  {
    if bs == [] then -1
    else if bs[0].fileInstance.filePath == p then 0
    else
      var k := FirstWithPath(bs[1..], p);
      assert Paths(bs) == [bs[0].fileInstance.filePath] + Paths(bs[1..]);
      if k == -1 then -1 else k + 1
  }

  /** The application state; the file handler's operations are its methods. */
  class ApplicationState {
    var fileBuffers: seq<Buffer>

    /** No path is open twice. */
    predicate Valid()
      reads this
    {
      DistinctPaths(fileBuffers)
    }

    constructor Empty()
      ensures fileBuffers == [] && Valid()
    {
      fileBuffers := [];
    }

    /** Opens the given paths in order (`disk` maps each existing path to its bytes);
        the first duplicate or missing path throws and no state results. */
    static method Create(filePaths: seq<string>, disk: map<string, seq<byte>>) returns (state: ApplicationState?, r: Outcome)
      ensures r.Pass? <==> Distinct(filePaths) && forall p :: p in filePaths ==> p in disk
      ensures r.Pass? <==> state != null
      ensures state != null ==> fresh(state) && state.Valid() && Paths(state.fileBuffers) == filePaths
    {
      var s := new ApplicationState.Empty();
      var i := 0;
      while i < |filePaths|
        invariant 0 <= i <= |filePaths|
        invariant fresh(s) && s.Valid() && Paths(s.fileBuffers) == filePaths[..i]
        invariant Distinct(filePaths[..i]) && forall p :: p in filePaths[..i] ==> p in disk
      {
        r := s.OpenFile(filePaths[i], disk);
        if r.Fail? {
          NotAllOpenable(filePaths, disk, i, Paths(s.fileBuffers));
          return null, r;
        }
        assert filePaths[..i + 1] == filePaths[..i] + [filePaths[i]];
        DistinctAppend(filePaths[..i], filePaths[i]);
        i := i + 1;
      }
      assert filePaths[..i] == filePaths;
      return s, Pass;
    }

    /** Refuses a path that is already open; a missing file throws when its size is
        read; otherwise appends a buffer over a newly opened file, lazy for files
        over 20 MiB. */
    method OpenFile(filePath: string, disk: map<string, seq<byte>>) returns (r: Outcome)
      requires Valid()
      modifies this`fileBuffers
      ensures r == if filePath in Paths(old(fileBuffers)) then Fail(InvalidOperation)
                   else if filePath !in disk then Fail(FileNotFound) else Pass
      ensures r.Fail? ==> fileBuffers == old(fileBuffers)
      ensures r.Pass? ==> |fileBuffers| == |old(fileBuffers)| + 1 && fileBuffers[..|old(fileBuffers)|] == old(fileBuffers)
      ensures r.Pass? ==> var b := fileBuffers[|old(fileBuffers)|];
                          fresh(b) && fresh(b.fileInstance) && b.fileInstance.filePath == filePath &&
                          b.fileInstance.content == disk[filePath] && b.kind == KindFor(|disk[filePath]|)
      ensures Valid()
    {
      if exists i :: 0 <= i < |fileBuffers| && fileBuffers[i].fileInstance.filePath == filePath {
        return Fail(InvalidOperation);
      }
      if filePath !in disk {
        return Fail(FileNotFound);
      }
      var kind := Immediate;
      if |disk[filePath]| > LazyThreshold {
        kind := Lazy;
      }
      var file := new File(filePath, Some(disk[filePath]));
      var buffer := new Buffer(kind, file);
      fileBuffers := fileBuffers + [buffer];
      assert Paths(fileBuffers) == Paths(old(fileBuffers)) + [filePath];
      return Pass;
    }

    /** Only looks the path up: `First` throws when it is not open. */
    method SaveFile(filePath: string) returns (r: Outcome)
      ensures r == if filePath in Paths(fileBuffers) then Pass else Fail(InvalidOperation)
    {
      var k := FirstWithPath(fileBuffers, filePath);
      if k < 0 {
        return Fail(InvalidOperation);
      }
      return Pass;
    }

    /** Refuses unless some open buffer has another path, so the last file is never
        closed; then disposes and removes the first buffer open at the path, which
        `First` requires to exist. */
    method CloseFile(filePath: string) returns (r: Outcome)
      requires Valid()
      modifies this`fileBuffers, (set b | b in fileBuffers && b.fileInstance.filePath == filePath :: b.fileInstance)`isOpen
      ensures r.Pass? <==> HasOtherPath(old(fileBuffers), filePath) && filePath in Paths(old(fileBuffers))
      ensures r.Fail? ==> r.error == InvalidOperation && fileBuffers == old(fileBuffers)
      ensures r.Pass? ==> var k := FirstWithPath(old(fileBuffers), filePath);
                          0 <= k && fileBuffers == old(fileBuffers)[..k] + old(fileBuffers)[k + 1..] &&
                          !old(fileBuffers)[k].fileInstance.isOpen && |fileBuffers| >= 1
      ensures forall b :: b in old(fileBuffers) && b.fileInstance.filePath != filePath ==>
                b.fileInstance.isOpen == old(b.fileInstance.isOpen)
      ensures Valid()
    {
      if !HasOtherPath(fileBuffers, filePath) {
        return Fail(InvalidOperation);
      }
      var k := FirstWithPath(fileBuffers, filePath);
      if k < 0 {
        return Fail(InvalidOperation);
      }
      assert filePath in Paths(fileBuffers) by {
        assert Paths(fileBuffers)[k] == filePath;
      }
      var buffer := fileBuffers[k];
      assert buffer.fileInstance in (set b | b in fileBuffers && b.fileInstance.filePath == filePath :: b.fileInstance);
      ClosedList(fileBuffers, filePath, k);
      buffer.fileInstance.Dispose();
      fileBuffers := fileBuffers[..k] + fileBuffers[k + 1..];
      r := Pass;
    }
  }

  /** Removing a buffer open at `p` when another path is open leaves a non-empty
      list of distinct paths. */
  lemma ClosedList(bs: seq<Buffer>, p: string, k: nat)
    requires DistinctPaths(bs) && HasOtherPath(bs, p) && k < |bs| && bs[k].fileInstance.filePath == p
    ensures DistinctPaths(bs[..k] + bs[k + 1..]) && |bs[..k] + bs[k + 1..]| >= 1
  {
    var other :| 0 <= other < |bs| && bs[other].fileInstance.filePath != p;
    RemovedKeepsDistinct(bs, k);
  }

  lemma RemovedKeepsDistinct(bs: seq<Buffer>, k: nat)
    requires k < |bs| && DistinctPaths(bs)
    ensures DistinctPaths(bs[..k] + bs[k + 1..])
  {
    var cs := bs[..k] + bs[k + 1..];
    forall i, j | 0 <= i < j < |cs| ensures cs[i].fileInstance.filePath != cs[j].fileInstance.filePath {
      if j < k {
        assert cs[i] == bs[i] && cs[j] == bs[j];
      } else if i < k {
        assert cs[i] == bs[i] && cs[j] == bs[j + 1];
      } else {
        assert cs[i] == bs[i + 1] && cs[j] == bs[j + 1];
      }
    }
  }

  /** Appending a new value keeps a list's values pairwise distinct. */
  lemma DistinctAppend(ps: seq<string>, p: string)
    requires Distinct(ps) && p !in ps
    ensures Distinct(ps + [p])
  {
    var qs := ps + [p];
    forall i, j | 0 <= i < j < |qs| ensures qs[i] != qs[j] {
      assert qs[i] == ps[i];
      if j < |ps| {
        assert qs[j] == ps[j];
      }
    }
  }

  /** A failed open means the list was not all distinct, existing paths. */
  lemma NotAllOpenable(filePaths: seq<string>, disk: map<string, seq<byte>>, i: nat, open: seq<string>)
    requires i < |filePaths| && open == filePaths[..i]
    requires filePaths[i] in open || filePaths[i] !in disk
    ensures !(Distinct(filePaths) && forall p :: p in filePaths ==> p in disk)
  {
    if filePaths[i] in open {
      var j :| 0 <= j < i && filePaths[..i][j] == filePaths[i];
      assert filePaths[j] == filePaths[i];
    }
  }
}
