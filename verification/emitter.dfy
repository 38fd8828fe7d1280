/**
 The pure part of writing the generated files: one output path per class, the
 ordered list of writes, and the effect of the remove-then-write loop on a
 directory modelled as a map from paths to file contents.
 */
module Emitter {
  import opened Strings
  import opened Schema
  import Generator

  /** A location: directory components followed by a file name. */
  type Path = seq<string>

  /** Foundation's `appendingPathExtension`: a dot, then the extension, after the last component. */
  function WithExtension(name: string, extension: string): string {
    name + "." + extension
  }

  /**
   The output file name of a class: its name with the `generated` and then the
   `swift` extension, which is the class name followed by the suffix the header
   comment spells out.
   */
  function FileName(className: string): (r: string)
    ensures r == className + Generator.GeneratedSuffix
  {
    assert "." + "generated" + "." + "swift" == Generator.GeneratedSuffix;
    WithExtension(WithExtension(className, "generated"), "swift")
  }

  /** Different classes are written to different files. */
  lemma FileNameInjective(a: string, b: string)
    requires FileName(a) == FileName(b)
    ensures a == b
  {
    SuffixOf(a, Generator.GeneratedSuffix);
    SuffixOf(b, Generator.GeneratedSuffix);
  }

  /** The output path of a class inside `destination`. */
  function OutputPath(destination: Path, className: string): Path {
    destination + [FileName(className)]
  }

  /** The header comment names the very file the class is written to. */
  lemma HeaderNamesOutputFile(o: ObjectSchema)
    ensures |Generator.FileLines(o)| > 1
    ensures Generator.FileLines(o)[1] == Generator.CommentLead + FileName(o.className)
  {
    Generator.HeaderNamesFile(o);
    assert Generator.CommentLead + o.className + Generator.GeneratedSuffix
        == Generator.CommentLead + (o.className + Generator.GeneratedSuffix);
  }

  /** One file to write. */
  datatype FileWrite = FileWrite(path: Path, contents: string)

  /** The writes of one run, one per class in schema order. */
  function Plan(objects: seq<ObjectSchema>, destination: Path): (r: seq<FileWrite>)
    ensures |r| == |objects|
    ensures forall i :: 0 <= i < |objects| ==>
      r[i] == FileWrite(OutputPath(destination, objects[i].className), Generator.GenerateFile(objects[i]))
  {
    if |objects| == 0 then []
    else
      [FileWrite(OutputPath(destination, objects[0].className), Generator.GenerateFile(objects[0]))]
        + Plan(objects[1..], destination)
  }

  predicate DistinctPaths(writes: seq<FileWrite>) {
    forall i, j :: 0 <= i < j < |writes| ==> writes[i].path != writes[j].path
  }

  /** Paths touched by `writes`. */
  function PathsOf(writes: seq<FileWrite>): set<Path> {
    set i | 0 <= i < |writes| :: writes[i].path
  }

  /** Classes with distinct names get distinct output paths. */
  lemma PlanPathsDistinct(objects: seq<ObjectSchema>, destination: Path)
    requires forall i, j :: 0 <= i < j < |objects| ==> objects[i].className != objects[j].className
    ensures DistinctPaths(Plan(objects, destination))
  {
    var plan := Plan(objects, destination);
    forall i, j | 0 <= i < j < |plan|
      ensures plan[i].path != plan[j].path
    {
      if plan[i].path == plan[j].path {
        assert plan[i].path[|destination|] == FileName(objects[i].className);
        assert plan[j].path[|destination|] == FileName(objects[j].className);
        FileNameInjective(objects[i].className, objects[j].className);
      }
    }
  }

  /** How a run ends: every file written, or stopped at the first write that failed. */
  datatype Outcome = Written(files: map<Path, string>) | WriteFailed(path: Path, files: map<Path, string>)

  /**
   The loop over the writes: remove any old file at the path (a missing file is
   no error), then write the new contents atomically. A write to a path in
   `failing` fails, leaving no file at that path, and ends the run.
   */
  function Emit(files: map<Path, string>, writes: seq<FileWrite>, failing: set<Path>): (r: Outcome)
    ensures r.WriteFailed? <==> exists i :: 0 <= i < |writes| && writes[i].path in failing
    ensures r.WriteFailed? ==>
      r.path in failing && r.path !in r.files && exists i :: 0 <= i < |writes| && writes[i].path == r.path
    decreases |writes|
  {
    if |writes| == 0 then Written(files)
    else
      var w := writes[0];
      var removed := files - {w.path};
      if w.path in failing then WriteFailed(w.path, removed)
      else
        var r := Emit(removed[w.path := w.contents], writes[1..], failing);
        assert forall i :: 1 <= i < |writes| ==> writes[i] == writes[1..][i - 1];
        r
  }

  /**
   Models `generateAttributeFiles(for:destination:)` once the destination exists:
   one file per class, written in schema order.
   */
  function GenerateAttributeFiles(
    objects: seq<ObjectSchema>, destination: Path, files: map<Path, string>, failing: set<Path>): (r: Outcome)
    ensures r.WriteFailed? <==>
      exists i :: 0 <= i < |objects| && OutputPath(destination, objects[i].className) in failing
    ensures r.WriteFailed? ==>
      r.path in failing && r.path !in r.files
      && exists i :: 0 <= i < |objects| && r.path == OutputPath(destination, objects[i].className)
  {
    PlanFailures(objects, destination, files, failing);
    Emit(files, Plan(objects, destination), failing)
  }

  /** The failures of the planned writes, stated over the classes the writes come from. */
  lemma PlanFailures(objects: seq<ObjectSchema>, destination: Path, files: map<Path, string>, failing: set<Path>)
    ensures var r := Emit(files, Plan(objects, destination), failing);
      (r.WriteFailed? <==> exists i :: 0 <= i < |objects| && OutputPath(destination, objects[i].className) in failing)
      && (r.WriteFailed? ==>
            r.path in failing && r.path !in r.files
            && exists i :: 0 <= i < |objects| && r.path == OutputPath(destination, objects[i].className))
  {
    var plan := Plan(objects, destination);
    var r := Emit(files, plan, failing);
    if r.WriteFailed? {
      var i :| 0 <= i < |plan| && plan[i].path == r.path;
      assert OutputPath(destination, objects[i].className) == r.path;
    } else {
      forall i | 0 <= i < |objects|
        ensures OutputPath(destination, objects[i].className) !in failing
      {
        assert plan[i].path == OutputPath(destination, objects[i].className);
      }
    }
  }

  /**
   When no write fails, every planned file holds its new contents and every
   other file, stale output of removed classes included, is left as it was.
   */
  lemma {:induction false} EmitWritesAll(files: map<Path, string>, writes: seq<FileWrite>, failing: set<Path>)
    requires DistinctPaths(writes)
    requires forall i :: 0 <= i < |writes| ==> writes[i].path !in failing
    ensures Emit(files, writes, failing).Written?
    ensures forall i :: 0 <= i < |writes| ==>
      writes[i].path in Emit(files, writes, failing).files
      && Emit(files, writes, failing).files[writes[i].path] == writes[i].contents
    ensures forall p :: p !in PathsOf(writes) ==>
      (p in Emit(files, writes, failing).files <==> p in files)
      && (p in files ==> Emit(files, writes, failing).files[p] == files[p])
    decreases |writes|
  {
    if |writes| > 0 {
      var w := writes[0];
      var next := (files - {w.path})[w.path := w.contents];
      EmitWritesAll(next, writes[1..], failing);
      var r := Emit(files, writes, failing);
      assert r == Emit(next, writes[1..], failing);
      forall i | 0 <= i < |writes|
        ensures writes[i].path in r.files && r.files[writes[i].path] == writes[i].contents
      {
        if i > 0 {
          assert writes[i] == writes[1..][i - 1];
        } else {
          assert w.path !in PathsOf(writes[1..]);
        }
      }
      forall p | p !in PathsOf(writes)
        ensures (p in r.files <==> p in files) && (p in files ==> r.files[p] == files[p])
      {
        assert p != w.path;
        assert p !in PathsOf(writes[1..]);
      }
    }
  }

  /** Repeating the same successful writes changes nothing. */
  lemma EmitIdempotent(files: map<Path, string>, writes: seq<FileWrite>, failing: set<Path>)
    requires DistinctPaths(writes)
    requires forall i :: 0 <= i < |writes| ==> writes[i].path !in failing
    ensures Emit(files, writes, failing).Written?
    ensures Emit(Emit(files, writes, failing).files, writes, failing) == Emit(files, writes, failing)
  {
    EmitWritesAll(files, writes, failing);
    var once := Emit(files, writes, failing).files;
    EmitWritesAll(once, writes, failing);
    var twice := Emit(once, writes, failing).files;
    forall p | p in PathsOf(writes)
      ensures p in once && p in twice && twice[p] == once[p]
    {
      var i :| 0 <= i < |writes| && writes[i].path == p;
    }
    assert twice == once;
  }

  /**
   Running the generator twice on an unchanged schema leaves the same files as
   running it once: nothing accumulates.
   */
  lemma GenerateTwiceSameFiles(
    objects: seq<ObjectSchema>, destination: Path, files: map<Path, string>, failing: set<Path>)
    requires forall i, j :: 0 <= i < j < |objects| ==> objects[i].className != objects[j].className
    requires forall i :: 0 <= i < |objects| ==> OutputPath(destination, objects[i].className) !in failing
    ensures GenerateAttributeFiles(objects, destination, files, failing).Written?
    ensures GenerateAttributeFiles(objects, destination, GenerateAttributeFiles(objects, destination, files, failing).files, failing)
         == GenerateAttributeFiles(objects, destination, files, failing)
  {
    var plan := Plan(objects, destination);
    PlanPathsDistinct(objects, destination);
    forall i | 0 <= i < |plan|
      ensures plan[i].path !in failing
    {
      assert plan[i].path == OutputPath(destination, objects[i].className);
    }
    EmitIdempotent(files, plan, failing);
    var once := Emit(files, plan, failing);
    assert GenerateAttributeFiles(objects, destination, files, failing) == once;
    assert GenerateAttributeFiles(objects, destination, once.files, failing) == Emit(once.files, plan, failing);
  }

  /**
   A write that fails stops the run at that class: the files of the classes before
   it are written, its own old file is gone, and nothing else has changed.
   */
  lemma {:induction false} EmitStopsAtFirstFailure(
    files: map<Path, string>, writes: seq<FileWrite>, failing: set<Path>, k: nat)
    requires DistinctPaths(writes)
    requires k < |writes| && writes[k].path in failing
    requires forall j :: 0 <= j < k ==> writes[j].path !in failing
    ensures Emit(files, writes, failing).WriteFailed?
    ensures Emit(files, writes, failing).path == writes[k].path
    ensures writes[k].path !in Emit(files, writes, failing).files
    ensures forall j :: 0 <= j < k ==>
      writes[j].path in Emit(files, writes, failing).files
      && Emit(files, writes, failing).files[writes[j].path] == writes[j].contents
    ensures forall p :: p !in PathsOf(writes[..k + 1]) ==>
      (p in Emit(files, writes, failing).files <==> p in files)
      && (p in files ==> Emit(files, writes, failing).files[p] == files[p])
    decreases k
  {
    var w := writes[0];
    if k > 0 {
      var next := (files - {w.path})[w.path := w.contents];
      EmitStopsAtFirstFailure(next, writes[1..], failing, k - 1);
      var r := Emit(files, writes, failing);
      assert r == Emit(next, writes[1..], failing);
      assert writes[1..][k - 1] == writes[k];
      forall j | 0 <= j < k
        ensures writes[j].path in r.files && r.files[writes[j].path] == writes[j].contents
      {
        if j > 0 {
          assert writes[j] == writes[1..][j - 1];
        } else {
          assert w.path !in PathsOf(writes[1..][..k]);
        }
      }
      forall p | p !in PathsOf(writes[..k + 1])
        ensures (p in r.files <==> p in files) && (p in files ==> r.files[p] == files[p])
      {
        assert writes[..k + 1][0] == w;
        assert p != w.path;
        assert p !in PathsOf(writes[1..][..k]) by {
          assert forall j :: 0 <= j < k ==> writes[1..][..k][j] == writes[..k + 1][j + 1];
        }
      }
    }
  }
}
