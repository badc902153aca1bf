/** The object-store artifact backend: publishing, listing and materialising runs
    (src/fl_op/serving/objectstore.py). */
module ArtifactStore {
  import opened Wrappers
  import opened Ordering
  import opened Text
  import opened RunKeys
  import opened Publication

  type Objects = map<string, Bytes>

  class Client {
    var objects: Objects
    /** Every put so far, in order: what a reader may see in between. */
    ghost var puts: seq<(string, Bytes)>

    constructor ()
      ensures objects == map[] && puts == []
    {
      objects, puts := map[], [];
    }

    method PutBytes(key: string, data: Bytes)
      modifies this
      ensures objects == old(objects)[key := data] && puts == old(puts) + [(key, data)]
    {
      objects, puts := objects[key := data], puts + [(key, data)];
    }

    method ListKeys(head: string) returns (keys: seq<string>)
      ensures Distinct(keys) && SortedBy(StringLe, keys)
      ensures forall key :: key in keys <==> key in objects && StartsWith(key, head)
    {
      keys := [];
      var todo := objects.Keys;
      while todo != {}
        invariant todo <= objects.Keys && Distinct(keys)
        invariant forall key :: key in keys <==> key in objects.Keys - todo && StartsWith(key, head)
        decreases |todo|
      {
        var key :| key in todo;
        if StartsWith(key, head) { keys := keys + [key]; }
        todo := todo - {key};
      }
      keys := SortedKeys(keys);
    }
  }

  method SortedKeys(keys: seq<string>) returns (r: seq<string>)
    requires Distinct(keys)
    ensures Distinct(r) && SortedBy(StringLe, r) && forall key :: key in r <==> key in keys
  {
    forall x, y | x in keys && y in keys ensures StringLe(x, y) || StringLe(y, x) { StringLeTotal(x, y); }
    forall x, y, z | x in keys && y in keys && z in keys && StringLe(x, y) && StringLe(y, z) ensures StringLe(x, z) {
      StringLeTransitive(x, y, z);
    }
    r := SortBy(StringLe, keys);
    SortBySorted(StringLe, keys);
    PermutationDistinct(keys, r);
    SameMembers(r, keys);
  }

  // ---- Publishing -----------------------------------------------------------------------------------------

  function Under(base: string, rel: string): string { base + "/" + rel }

  predicate IsUnder(base: string, key: string) { StartsWith(key, base + "/") }

  function RelOf(base: string, key: string): string
    requires IsUnder(base, key)
  {
    key[|base| + 1..]
  }

  lemma UnderRoundTrip(base: string, rel: string, key: string)
    ensures IsUnder(base, Under(base, rel)) && RelOf(base, Under(base, rel)) == rel
    ensures IsUnder(base, key) ==> Under(base, RelOf(base, key)) == key
  {
    assert Under(base, rel)[..|base| + 1] == base + "/";
    if IsUnder(base, key) { assert key == key[..|base| + 1] + key[|base| + 1..]; }
  }

  /** after is before with the objects of run laid over the directory base. */
  ghost predicate Overlay(before: Objects, after: Objects, base: string, run: map<string, Bytes>) {
    forall key {:trigger key in after} {:trigger key in before} ::
      if IsUnder(base, key) && RelOf(base, key) in run
      then key in after && after[key] == run[RelOf(base, key)]
      else (key in after <==> key in before) && (key in before ==> after[key] == before[key])
  }

  lemma OverlayPut(before: Objects, after: Objects, base: string, run: map<string, Bytes>, rel: string, data: Bytes)
    requires Overlay(before, after, base, run)
    ensures Overlay(before, after[Under(base, rel) := data], base, run[rel := data])
  {
    hide IsUnder, Under, RelOf;
    var next, more := after[Under(base, rel) := data], run[rel := data];
    forall key {:trigger key in next} {:trigger key in before}
      ensures if IsUnder(base, key) && RelOf(base, key) in more
              then key in next && next[key] == more[RelOf(base, key)]
              else (key in next <==> key in before) && (key in before ==> next[key] == before[key])
    {
      UnderRoundTrip(base, rel, key);
      assert key in after || key !in after;
    }
  }

  /** The first n puts of a run: its files in order, the marker last. */
  function PutsOf(base: string, files: Files, marker: string, n: nat): (r: seq<(string, Bytes)>)
    requires n <= |files| + 1
    ensures |r| == n
  {
    seq(n, k requires 0 <= k < n => (Under(base, Put(files, marker, k).0), Put(files, marker, k).1))
  }

  /** Puts the files and then the marker, in that order; an unsafe path raises before the
      marker is put. */
  method PublishRun(client: Client, subdir: string, run: string, files: seq<(string, Bytes)>, prefix: string, marker: string)
    returns (ok: bool)
    modifies client
    ensures ok <==> AllSafe(files)
    ensures var safe := SafeFiles(files);
            Overlay(old(client.objects), client.objects, PublishBase(prefix, subdir, run),
                    After(safe, marker, PutCount(files)))
    ensures var safe := SafeFiles(files);
            client.puts == old(client.puts)
              + PutsOf(PublishBase(prefix, subdir, run), safe, marker, PutCount(files))
  {
    hide SafeRel, Overlay, PublishBase, Under;
    var base := PublishBase(prefix, subdir, run);
    ghost var safe := SafeFiles(files);
    SafeFilesLength(files);
    NothingPut(client.objects, base);
    for k := 0 to |files|
      invariant k <= |safe| && forall i :: 0 <= i < k ==> SafeRel(files[i].0).Some?
      invariant Overlay(old(client.objects), client.objects, base, After(safe, marker, k))
      invariant client.puts == old(client.puts) + PutsOf(base, safe, marker, k)
    {
      SafeFilesAre(files, k);
      var rel := SafeRel(files[k].0);
      if rel.None? { return false; }
      OverlayPut(old(client.objects), client.objects, base, After(safe, marker, k), rel.value, files[k].1);
      client.PutBytes(Under(base, rel.value), files[k].1);
      assert PutsOf(base, safe, marker, k + 1) == PutsOf(base, safe, marker, k) + [(Under(base, rel.value), files[k].1)];
    }
    OverlayPut(old(client.objects), client.objects, base, After(safe, marker, |safe|), marker, []);
    client.PutBytes(Under(base, marker), []);
    assert PutsOf(base, safe, marker, |safe| + 1) == PutsOf(base, safe, marker, |safe|) + [(Under(base, marker), [])];
    return true;
  }

  lemma NothingPut(objects: Objects, base: string)
    ensures Overlay(objects, objects, base, map[])
  {
  }

  // ---- Listing --------------------------------------------------------------------------------------------

  /** The runs directly under base that carry their commit marker. */
  ghost predicate Committed(objects: Objects, base: string, marker: string, run: string) {
    Lacks(run, '/') && DirKey(base, run, marker) in objects
  }

  method ListRunIds(client: Client, prefix: string, subdir: string, marker: string) returns (ids: seq<string>)
    requires Lacks(marker, '/')
    ensures Distinct(ids) && SortedBy(StringLe, ids)
    ensures forall run :: run in ids <==> Committed(client.objects, ListBase(prefix, subdir), marker, run)
  {
    hide CommittedRun, DirKey;
    var base := ListBase(prefix, subdir);
    var keys := client.ListKeys(base + "/");
    ids := [];
    for k := 0 to |keys|
      invariant Distinct(ids)
      invariant forall run :: run in ids <==> exists i :: 0 <= i < k && CommittedRun(base, marker, keys[i]) == Some(run)
    {
      var committed := CommittedRun(base, marker, keys[k]);
      if committed.Some? && committed.value !in ids { ids := ids + [committed.value]; }
    }
    ids := SortedKeys(ids);
    forall run ensures run in ids <==> Committed(client.objects, base, marker, run) {
      ListedIff(client.objects, keys, base, marker, run);
    }
  }

  lemma ListedIff(objects: Objects, keys: seq<string>, base: string, marker: string, run: string)
    requires Lacks(marker, '/') && forall key :: key in keys <==> key in objects && StartsWith(key, base + "/")
    ensures (exists i :: 0 <= i < |keys| && CommittedRun(base, marker, keys[i]) == Some(run)) <==>
            Committed(objects, base, marker, run)
  {
    hide CommittedRun;
    forall key ensures CommittedRun(base, marker, key) == Some(run) <==> Lacks(run, '/') && key == DirKey(base, run, marker) {
      CommitsIff(base, marker, key, run);
    }
    var key := DirKey(base, run, marker);
    assert StartsWith(key, base + "/") by { assert key == (base + "/") + (run + "/" + marker); }
    if Committed(objects, base, marker, run) {
      assert key in keys;
      var i :| 0 <= i < |keys| && keys[i] == key;
    }
    if i :| 0 <= i < |keys| && CommittedRun(base, marker, keys[i]) == Some(run) {
      assert keys[i] in keys;
    }
  }

  // ---- Materialising ----------------------------------------------------------------------------------------

  /** The local directory: relative paths with their contents. */
  class Cache {
    var files: map<string, Bytes>

    constructor ()
      ensures files == map[]
    {
      files := map[];
    }
  }

  /** Copy what is missing locally; what is there already stays. Prefix and path come in normal
      form. */
  method Materialize(client: Client, cache: Cache, prefix: string, rel: string)
    modifies cache
    ensures forall key :: key in client.objects && StartsWith(key, Key(prefix, rel) + "/") ==>
                            StripPrefix(prefix, key) in cache.files
    ensures forall p :: p in old(cache.files) ==> p in cache.files && cache.files[p] == old(cache.files[p])
    ensures forall p :: p in cache.files && p !in old(cache.files) ==>
                          Key(prefix, p) in client.objects && cache.files[p] == client.objects[Key(prefix, p)]
  {
    hide Key, StripPrefix;
    ghost var before := cache.files;
    var base := Key(prefix, rel);
    var keys := client.ListKeys(base + "/");
    for k := 0 to |keys|
      invariant forall i :: 0 <= i < k ==> StripPrefix(prefix, keys[i]) in cache.files
      invariant forall p :: p in before ==> p in cache.files && cache.files[p] == before[p]
      invariant forall p :: p in cache.files && p !in before ==>
                  Key(prefix, p) in client.objects && cache.files[p] == client.objects[Key(prefix, p)]
    {
      assert keys[k] in keys;
      KeyUnderDirectory(prefix, rel, keys[k]);
      var local := StripPrefix(prefix, keys[k]);
      if local !in cache.files {
        cache.files := cache.files[local := client.objects[keys[k]]];
      }
    }
  }

  lemma KeyUnderDirectory(prefix: string, rel: string, key: string)
    requires StartsWith(key, Key(prefix, rel) + "/")
    ensures Key(prefix, StripPrefix(prefix, key)) == key
  {
    KeyRoundTrip(prefix, rel, key);
    if prefix != "" {
      var head := prefix + "/";
      assert (Key(prefix, rel) + "/")[..|head|] == head;
      assert key[..|head|] == (key[..|Key(prefix, rel) + "/"|])[..|head|];
    }
  }
}
