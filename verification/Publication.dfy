/** One publisher: its files one after another, then the commit marker
    (src/fl_op/serving/objectstore.py, publish_run). */
module Publication {
  import opened Wrappers
  import opened RunKeys

  type Bytes = seq<nat>
  /** Paths with their contents, in the order they are put: as the caller gives them, or under
      normalised names. */
  type Files = seq<(string, Bytes)>

  // ---- What is put ------------------------------------------------------------------------------------------

  /** The files in front of the first unsafe path, under their normalised names. */
  function SafeFiles(files: Files): Files {
    if files == [] || SafeRel(files[0].0).None? then []
    else [(SafeRel(files[0].0).value, files[0].1)] + SafeFiles(files[1..])
  }

  predicate AllSafe(files: Files) {
    forall k :: 0 <= k < |files| ==> SafeRel(files[k].0).Some?
  }

  lemma {:induction false} SafeFilesAre(files: Files, k: nat)
    requires k < |files| && forall i :: 0 <= i < k ==> SafeRel(files[i].0).Some?
    ensures SafeRel(files[k].0).Some? ==>
              k < |SafeFiles(files)| && SafeFiles(files)[k] == (SafeRel(files[k].0).value, files[k].1)
    ensures SafeRel(files[k].0).None? ==> |SafeFiles(files)| == k
  {
    hide SafeRel;
    if k > 0 { SafeFilesAre(files[1..], k - 1); }
  }

  lemma {:induction false} SafeFilesLength(files: Files)
    ensures |SafeFiles(files)| <= |files|
    ensures AllSafe(files) ==> |SafeFiles(files)| == |files|
  {
    hide SafeRel;
    if files != [] {
      SafeFilesLength(files[1..]);
      if AllSafe(files) { assert SafeRel(files[0].0).Some? && AllSafe(files[1..]); }
    }
  }

  /** How many objects a publication puts: the marker only when no path is unsafe. */
  function PutCount(files: Files): nat { |SafeFiles(files)| + if AllSafe(files) then 1 else 0 }

  /** The nth object put: a file, or the empty marker after the last file. */
  function Put(safe: Files, marker: string, n: nat): (string, Bytes)
    requires n <= |safe|
  {
    if n < |safe| then safe[n] else (marker, [])
  }

  /** The run's objects after the first n puts. */
  function After(safe: Files, marker: string, n: nat): map<string, Bytes>
    requires n <= |safe| + 1
  {
    if n == 0 then map[]
    else After(safe, marker, n - 1)[Put(safe, marker, n - 1).0 := Put(safe, marker, n - 1).1]
  }

  lemma {:induction false} AfterHas(safe: Files, marker: string, n: nat, rel: string)
    requires n <= |safe| + 1
    ensures rel in After(safe, marker, n) <==> exists k :: 0 <= k < n && Put(safe, marker, k).0 == rel
  {
    if n > 0 { AfterHas(safe, marker, n - 1, rel); }
  }

  /** The first n puts never give one name different bytes. */
  ghost predicate Agree(safe: Files, marker: string, n: nat)
    requires n <= |safe| + 1
  {
    forall i, j :: 0 <= i < j < n && Put(safe, marker, i).0 == Put(safe, marker, j).0 ==>
                     Put(safe, marker, i).1 == Put(safe, marker, j).1
  }

  lemma {:induction false} AgreedValue(safe: Files, marker: string, n: nat, k: nat)
    requires k < n <= |safe| + 1 && Agree(safe, marker, n)
    ensures var put := Put(safe, marker, k);
            put.0 in After(safe, marker, n) && After(safe, marker, n)[put.0] == put.1
  {
    if k < n - 1 { AgreedValue(safe, marker, n - 1, k); }
  }

  ghost predicate SubMap<K, V>(a: map<K, V>, b: map<K, V>) { forall k :: k in a ==> k in b && b[k] == a[k] }

  /** As long as the puts agree, what is put stays as it is. */
  lemma {:induction false} AfterGrows(safe: Files, marker: string, n: nat, m: nat)
    requires n <= m <= |safe| + 1 && Agree(safe, marker, m)
    ensures SubMap(After(safe, marker, n), After(safe, marker, m))
    decreases m - n
  {
    if n < m {
      AfterGrows(safe, marker, n, m - 1);
      var put := Put(safe, marker, m - 1);
      AfterHas(safe, marker, m - 1, put.0);
      if put.0 in After(safe, marker, m - 1) {
        var k :| 0 <= k < m - 1 && Put(safe, marker, k).0 == put.0;
        AgreedValue(safe, marker, m - 1, k);
      }
    }
  }

  // ---- The commit-marker contract --------------------------------------------------------------------------

  /** objects hold this file with its own bytes. */
  ghost predicate Holds(objects: map<string, Bytes>, file: (string, Bytes)) {
    var rel := SafeRel(file.0);
    rel.Some? && rel.value in objects && objects[rel.value] == file.1
  }

  ghost predicate Complete(files: Files, objects: map<string, Bytes>) {
    forall k :: 0 <= k < |files| ==> Holds(objects, files[k])
  }

  /** Whenever a reader sees the marker, it sees every file of the run with its own bytes. */
  ghost predicate ListedIsWhole(files: Files, marker: string) {
    forall n :: 0 <= n <= PutCount(files) && marker in After(SafeFiles(files), marker, n) ==>
                  Complete(files, After(SafeFiles(files), marker, n))
  }

  /** Paths that normalise to one name carry the same bytes. */
  predicate NamesAgree(safe: Files) {
    forall i, j :: 0 <= i < j < |safe| && safe[i].0 == safe[j].0 ==> safe[i].1 == safe[j].1
  }

  /** A file of the marker's name is empty and nothing new follows it. */
  predicate MarkerIsLast(safe: Files, marker: string) {
    forall k :: 0 <= k < |safe| && safe[k].0 == marker ==>
      safe[k].1 == [] && forall j :: k < j < |safe| ==> OccursBy(safe, k, safe[j].0)
  }

  predicate OccursBy(safe: Files, k: nat, name: string) {
    exists i :: 0 <= i <= k && i < |safe| && safe[i].0 == name
  }

  /** What a caller has to see to: no two paths collide with different bytes, and the marker's
      name is left alone; a publication that an unsafe path stops only needs the latter. */
  predicate CommitOk(files: Files, marker: string) {
    var safe := SafeFiles(files);
    if AllSafe(files) then NamesAgree(safe) && MarkerIsLast(safe, marker)
    else forall k :: 0 <= k < |safe| ==> safe[k].0 != marker
  }

  /** The commit-marker contract holds for a publication exactly under that condition. */
  lemma CommitContractIff(files: Files, marker: string)
    ensures ListedIsWhole(files, marker) <==> CommitOk(files, marker)
  {
    hide SafeRel, AllSafe;
    if CommitOk(files, marker) {
      forall n | 0 <= n <= PutCount(files) && marker in After(SafeFiles(files), marker, n)
        ensures Complete(files, After(SafeFiles(files), marker, n))
      {
        MarkerMeansComplete(files, marker, n);
      }
    } else if !AllSafe(files) {
      var k :| 0 <= k < |SafeFiles(files)| && SafeFiles(files)[k].0 == marker;
      AfterHas(SafeFiles(files), marker, k + 1, marker);
      StoppedIsIncomplete(files, After(SafeFiles(files), marker, k + 1));
    } else {
      var n := BadPoint(files, marker);
    }
  }

  lemma OkAgrees(files: Files, marker: string)
    requires AllSafe(files) && CommitOk(files, marker)
    ensures Agree(SafeFiles(files), marker, |SafeFiles(files)| + 1)
  {
  }

  /** Every put the marker is seen after, all files have been put. */
  lemma MarkerMeansComplete(files: Files, marker: string, n: nat)
    requires CommitOk(files, marker) && n <= PutCount(files) && marker in After(SafeFiles(files), marker, n)
    ensures AllSafe(files) && Complete(files, After(SafeFiles(files), marker, n))
  {
    hide SafeRel, AllSafe;
    var safe := SafeFiles(files);
    AfterHas(safe, marker, n, marker);
    var k :| 0 <= k < n && Put(safe, marker, k).0 == marker;
    assert AllSafe(files);
    SafeFilesLength(files);
    OkAgrees(files, marker);
    forall j | 0 <= j < |files| ensures Holds(After(safe, marker, n), files[j]) {
      var i := j;
      if j > k { i := PutBy(safe, marker, n, k, j); }
      AgreedValue(safe, marker, n, i);
      SafeAt(files, j);
    }
  }

  /** And from there on nothing about the run changes. */
  lemma MarkerMeansFinal(files: Files, marker: string, n: nat)
    requires CommitOk(files, marker) && n <= PutCount(files) && marker in After(SafeFiles(files), marker, n)
    ensures After(SafeFiles(files), marker, n) == After(SafeFiles(files), marker, |SafeFiles(files)| + 1)
  {
    hide SafeRel, AllSafe, CommitOk;
    MarkerMeansComplete(files, marker, n);
    OkAgrees(files, marker);
    SafeFilesLength(files);
    var safe := SafeFiles(files);
    var now, end := After(safe, marker, n), After(safe, marker, |safe| + 1);
    AfterGrows(safe, marker, n, |safe| + 1);
    forall rel | rel in end ensures rel in now {
      AfterHas(safe, marker, |safe| + 1, rel);
      var k :| 0 <= k < |safe| + 1 && Put(safe, marker, k).0 == rel;
      if k < |safe| {
        SafeAt(files, k);
        assert Holds(now, files[k]);
      }
    }
  }

  /** The put of a file's name at or before the marker's. */
  lemma PutBy(safe: Files, marker: string, n: nat, k: nat, j: nat) returns (i: nat)
    requires NamesAgree(safe) && MarkerIsLast(safe, marker)
    requires k < j < |safe| && k < n <= |safe| + 1 && Put(safe, marker, k).0 == marker
    ensures i < n && i < |safe| && safe[i] == safe[j]
  {
    assert OccursBy(safe, k, safe[j].0);
    i :| 0 <= i <= k && i < |safe| && safe[i].0 == safe[j].0;
  }

  lemma SafeAt(files: Files, k: nat)
    requires AllSafe(files) && k < |files|
    ensures SafeRel(files[k].0).Some? && k < |SafeFiles(files)|
    ensures SafeFiles(files)[k] == (SafeRel(files[k].0).value, files[k].1)
  {
    SafeFilesAre(files, k);
  }

  lemma StoppedIsIncomplete(files: Files, objects: map<string, Bytes>)
    requires !AllSafe(files)
    ensures !Complete(files, objects)
  {
    hide SafeRel;
    var k :| 0 <= k < |files| && SafeRel(files[k].0).None?;
    assert !Holds(objects, files[k]);
  }

  /** Otherwise the marker is seen at some point where a file is missing or has other bytes. */
  lemma BadPoint(files: Files, marker: string) returns (n: nat)
    requires AllSafe(files) && !CommitOk(files, marker)
    ensures n <= PutCount(files) && marker in After(SafeFiles(files), marker, n)
    ensures !Complete(files, After(SafeFiles(files), marker, n))
  {
    hide SafeRel, AllSafe;
    var safe := SafeFiles(files);
    SafeFilesLength(files);
    n := |safe| + 1;
    AfterHas(safe, marker, n, marker);
    assert Put(safe, marker, |safe|).0 == marker;
    if !NamesAgree(safe) {
      var i, j :| 0 <= i < j < |safe| && safe[i].0 == safe[j].0 && safe[i].1 != safe[j].1;
      SafeAt(files, i);
      SafeAt(files, j);
      assert !(Holds(After(safe, marker, n), files[i]) && Holds(After(safe, marker, n), files[j]));
    } else {
      var k :| 0 <= k < |safe| && safe[k].0 == marker
               && !(safe[k].1 == [] && forall j :: k < j < |safe| ==> OccursBy(safe, k, safe[j].0));
      if safe[k].1 != [] {
        SafeAt(files, k);
        assert !Holds(After(safe, marker, n), files[k]);
      } else {
        var j :| k < j < |safe| && !OccursBy(safe, k, safe[j].0);
        n := k + 1;
        AfterHas(safe, marker, n, marker);
        assert Put(safe, marker, k).0 == marker;
        AfterHas(safe, marker, n, safe[j].0);
        SafeAt(files, j);
        assert !Holds(After(safe, marker, n), files[j]);
      }
    }
  }

  /** The finished publication of safe paths holds every file with its own bytes exactly when
      colliding paths agree and a file of the marker's name is empty. */
  lemma FinalHolds(files: Files, marker: string)
    ensures AllSafe(files) ==>
              (Complete(files, After(SafeFiles(files), marker, |SafeFiles(files)| + 1)) <==>
               NamesAgree(SafeFiles(files))
               && forall k :: 0 <= k < |SafeFiles(files)| && SafeFiles(files)[k].0 == marker ==> SafeFiles(files)[k].1 == [])
  {
    hide SafeRel, AllSafe;
    var safe := SafeFiles(files);
    var objects := After(safe, marker, |safe| + 1);
    if AllSafe(files) {
      SafeFilesLength(files);
      forall k | 0 <= k < |files|
        ensures Holds(objects, files[k]) <==> safe[k].0 in objects && objects[safe[k].0] == safe[k].1
      {
        SafeAt(files, k);
      }
      if NamesAgree(safe) && forall k :: 0 <= k < |safe| && safe[k].0 == marker ==> safe[k].1 == [] {
        forall k | 0 <= k < |files| ensures Holds(objects, files[k]) { AgreedValue(safe, marker, |safe| + 1, k); }
      }
      if Complete(files, objects) {
        forall k | 0 <= k < |safe| ensures objects[safe[k].0] == safe[k].1 { assert Holds(objects, files[k]); }
      }
    }
  }

  // ---- Inputs that break it ----------------------------------------------------------------------------------

  lemma TwoFiles(a: (string, Bytes), b: (string, Bytes))
    requires SafeRel(a.0).Some? && SafeRel(b.0).Some?
    ensures AllSafe([a, b]) && SafeFiles([a, b]) == [(SafeRel(a.0).value, a.1), (SafeRel(b.0).value, b.1)]
  {
    hide SafeRel;
    assert [a, b][1..] == [b] && [b][1..] == [];
    assert SafeFiles([b]) == [(SafeRel(b.0).value, b.1)];
  }

  /** A file of the marker's name makes the run visible without its schedule. */
  lemma MarkerFileListsTooEarly()
    ensures var files: Files := [("_COMMITTED", [1]), ("schedule.json", [2])];
            && SafeFiles(files) == files && AllSafe(files)
            && "_COMMITTED" in After(files, "_COMMITTED", 1)
            && "schedule.json" !in After(files, "_COMMITTED", 1)
            && "schedule.json" in After(files, "_COMMITTED", 3)
  {
    var files: Files := [("_COMMITTED", [1]), ("schedule.json", [2])];
    hide SafeRel;
    MarkerIsPlain();
    ScheduleIsPlain();
    TwoFiles(files[0], files[1]);
    hide SafeFiles, AllSafe, After;
    assert "_COMMITTED" != "schedule.json" by { assert |"_COMMITTED"| != |"schedule.json"|; }
    MarkerFirst("_COMMITTED", "schedule.json", [1], [2]);
  }

  lemma MarkerIsPlain()
    ensures SafeRel("_COMMITTED") == Some("_COMMITTED")
  {
    hide SafeRel;
    PlainPath("_COMMITTED");
  }

  lemma ScheduleIsPlain()
    ensures SafeRel("schedule.json") == Some("schedule.json")
  {
    hide SafeRel;
    PlainPath("schedule.json");
  }

  lemma MarkerFirst(marker: string, name: string, a: Bytes, b: Bytes)
    requires marker != name
    ensures marker in After([(marker, a), (name, b)], marker, 1) && name !in After([(marker, a), (name, b)], marker, 1)
    ensures name in After([(marker, a), (name, b)], marker, 3)
  {
    var files := [(marker, a), (name, b)];
    AfterHas(files, marker, 1, name);
    AfterHas(files, marker, 3, name);
    AfterHas(files, marker, 1, marker);
    assert Put(files, marker, 0).0 == marker && Put(files, marker, 1).0 == name;
  }

  /** Two spellings of one path: both files are put, and the finished run has lost the first. */
  lemma CollidingPathsLoseOne()
    ensures var files: Files := [("a", [1]), ("./a", [2])];
            && AllSafe(files) && SafeFiles(files) == [("a", [1]), ("a", [2])]
            && After(SafeFiles(files), "_COMMITTED", 3) == map["a" := [2], "_COMMITTED" := []]
            && !Complete(files, After(SafeFiles(files), "_COMMITTED", 3))
  {
    var files: Files := [("a", [1]), ("./a", [2])];
    PlainPath("a");
    DottedPath("a");
    TwoFiles(files[0], files[1]);
    hide SafeFiles, SafeRel, AllSafe;
    var safe: Files := [("a", [1]), ("a", [2])];
    assert "_COMMITTED" != "a" by { assert |"_COMMITTED"| != |"a"|; }
    assert After(safe, "_COMMITTED", 2) == map["a" := [2]];
    assert After(safe, "_COMMITTED", 3) == map["a" := [2], "_COMMITTED" := []];
    assert !Holds(After(safe, "_COMMITTED", 3), files[0]);
  }
}
