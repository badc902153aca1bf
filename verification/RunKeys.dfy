/** Object keys of published runs
    (src/fl_op/serving/objectstore.py, _key, _strip_prefix, _safe_rel and the parsing in
    list_run_ids). */
module RunKeys {
  import opened Wrappers
  import opened Text
  import opened Ordering

  predicate StartsWith(text: string, head: string) { |head| <= |text| && text[..|head|] == head }

  /** A text without the slashes around it. */
  function TrimSlashes(text: string): string { TrimRight(TrimLeft(text)) }

  function TrimLeft(text: string): string { if text != "" && text[0] == '/' then TrimLeft(text[1..]) else text }

  function TrimRight(text: string): string {
    if text != "" && text[|text| - 1] == '/' then TrimRight(text[..|text| - 1]) else text
  }

  lemma {:induction false} TrimLeftStart(text: string)
    ensures TrimLeft(text) != "" ==> TrimLeft(text)[0] != '/'
  {
    if text != "" && text[0] == '/' { TrimLeftStart(text[1..]); }
  }

  lemma {:induction false} TrimRightStart(text: string)
    requires text != "" ==> text[0] != '/'
    ensures TrimRight(text) != "" ==> TrimRight(text)[0] != '/'
  {
    if text != "" && text[|text| - 1] == '/' { TrimRightStart(text[..|text| - 1]); }
  }

  ghost predicate OnlySlashes(text: string) { forall i :: 0 <= i < |text| ==> text[i] == '/' }

  lemma {:induction false} TrimLeftMeans(text: string) returns (head: string)
    ensures OnlySlashes(head) && text == head + TrimLeft(text)
  {
    head := "";
    if text != "" && text[0] == '/' {
      head := TrimLeftMeans(text[1..]);
      head := "/" + head;
    }
  }

  lemma {:induction false} TrimRightMeans(text: string) returns (tail: string)
    ensures OnlySlashes(tail) && text == TrimRight(text) + tail
    ensures TrimRight(text) != "" ==> TrimRight(text)[|TrimRight(text)| - 1] != '/'
  {
    tail := "";
    if text != "" && text[|text| - 1] == '/' {
      tail := TrimRightMeans(text[..|text| - 1]);
      tail := tail + "/";
    }
  }

  /** Trimming takes slashes off both ends, all of them and nothing else. */
  lemma TrimSlashesMeans(text: string) returns (head: string, tail: string)
    ensures OnlySlashes(head) && OnlySlashes(tail) && text == head + TrimSlashes(text) + tail
    ensures TrimSlashes(text) != "" ==> TrimSlashes(text)[0] != '/' && TrimSlashes(text)[|TrimSlashes(text)| - 1] != '/'
  {
    head := TrimLeftMeans(text);
    tail := TrimRightMeans(TrimLeft(text));
    TrimLeftStart(text);
    TrimRightStart(TrimLeft(text));
  }

  /** The key of a relative path (_key). */
  function Key(prefix: string, rel: string): string { if prefix != "" then prefix + "/" + rel else rel }

  /** A key without the prefix (_strip_prefix). */
  function StripPrefix(prefix: string, key: string): string {
    if prefix == "" then key
    else if StartsWith(key, prefix + "/") then key[|prefix| + 1..]
    else key
  }

  /** Keys and relative paths determine each other. */
  lemma KeyRoundTrip(prefix: string, rel: string, key: string)
    ensures StripPrefix(prefix, Key(prefix, rel)) == rel
    ensures prefix == "" || StartsWith(key, prefix + "/") ==> Key(prefix, StripPrefix(prefix, key)) == key
  {
    var head := prefix + "/";
    assert (head + rel)[..|head|] == head && (head + rel)[|head|..] == rel;
    if StartsWith(key, head) { assert key == key[..|head|] + key[|head|..]; }
  }

  lemma KeyInjective(prefix: string, a: string, b: string)
    requires Key(prefix, a) == Key(prefix, b)
    ensures a == b
  {
    KeyRoundTrip(prefix, a, "");
    KeyRoundTrip(prefix, b, "");
  }

  // ---- Paths ------------------------------------------------------------------------------------------

  /** The parts that survive normalisation: neither empty nor ".". */
  function Meaningful(parts: seq<string>): seq<string> {
    if parts == [] then []
    else (if parts[0] == "" || parts[0] == "." then [] else [parts[0]]) + Meaningful(parts[1..])
  }

  /** The root of a path: two leading slashes are kept as they are, any other number is one. */
  function Root(path: string): string {
    if !StartsWith(path, "/") then ""
    else if StartsWith(path, "//") && !StartsWith(path, "///") then "//"
    else "/"
  }

  /** A path in normal form; a path of nothing is ".". */
  function Posix(path: string): string {
    var normal := Root(path) + Join(Meaningful(Split(path, '/')), '/');
    if normal == "" then "." else normal
  }

  /** The normalised path, or None for an absolute path or one that climbs. */
  function SafeRel(path: string): Option<string> {
    if StartsWith(path, "/") || ".." in Meaningful(Split(path, '/')) then None else Some(Posix(path))
  }

  /** Normalising drops empty parts and ".", and keeps the others in order. */
  lemma {:induction false} MeaningfulParts(parts: seq<string>)
    ensures Meaningful(parts) == Filter((part: string) => part != "" && part != ".", parts)
  {
    if parts != [] { MeaningfulParts(parts[1..]); }
  }

  /** A path is unsafe exactly when it is absolute or one of its parts is ".."; otherwise its
      normal form has the parts that count, or is "." where there is none. */
  lemma SafeRelMeans(path: string)
    ensures SafeRel(path).None? <==> StartsWith(path, "/") || ".." in Split(path, '/')
    ensures SafeRel(path).Some? ==>
              var counting := Filter((part: string) => part != "" && part != ".", Split(path, '/'));
              Split(SafeRel(path).value, '/') == if counting == [] then ["."] else counting
  {
    var parts := Split(path, '/');
    var counting := Meaningful(parts);
    MeaningfulParts(parts);
    MeaningfulMembers(parts, "..");
    SplitLacks(path, '/');
    forall part | part in counting ensures Lacks(part, '/') { MeaningfulMembers(parts, part); }
    if counting == [] {
      SplitPlain(".", '/');
    } else {
      MeaningfulMembers(parts, counting[0]);
      SplitJoin(counting, '/');
      JoinStarts(counting);
      if SafeRel(path).Some? { assert Root(path) == "" && "" + Join(counting, '/') == Join(counting, '/'); }
    }
  }

  /** A path in normal form is its root, one slash or exactly two, and the parts that count. */
  lemma PosixMeans(slashes: string, rest: string)
    requires OnlySlashes(slashes) && !StartsWith(rest, "/")
    ensures var counting := Filter((part: string) => part != "" && part != ".", Split(rest, '/'));
            Posix(slashes + rest) == if slashes == "" && counting == [] then "."
                                     else (if |slashes| <= 2 then slashes else "/") + Join(counting, '/')
  {
    hide Split;
    var path, counting := slashes + rest, Meaningful(Split(rest, '/'));
    MeaningfulParts(Split(rest, '/'));
    SlashesDrop(slashes, rest);
    RootIs(slashes, rest);
    if counting != [] {
      MeaningfulMembers(Split(rest, '/'), counting[0]);
      JoinStarts(counting);
    }
  }

  lemma RootIs(slashes: string, rest: string)
    requires OnlySlashes(slashes) && !StartsWith(rest, "/")
    ensures Root(slashes + rest) == if |slashes| <= 2 then slashes else "/"
  {
    var path := slashes + rest;
    assert rest != "" ==> rest[..1][0] == rest[0];
    assert rest != "" ==> path[|slashes|] != '/';
    if |slashes| >= 1 { assert path[..1] == "/"; }
    if |slashes| >= 2 { assert path[..2] == "//"; }
    if |slashes| >= 3 { assert path[..3] == "///"; }
    assert forall n :: |slashes| < n <= |path| ==> path[..n][|slashes|] == path[|slashes|];
  }

  lemma {:induction false} SlashesDrop(slashes: string, rest: string)
    requires OnlySlashes(slashes)
    ensures Meaningful(Split(slashes + rest, '/')) == Meaningful(Split(rest, '/'))
  {
    if slashes == "" {
      assert slashes + rest == rest;
    } else {
      SlashesDrop(slashes[1..], rest);
      assert slashes + rest == "" + ['/'] + (slashes[1..] + rest);
      SplitAt("", '/', slashes[1..] + rest);
      var parts := Split(slashes[1..] + rest, '/');
      assert ([""] + parts)[1..] == parts;
    }
  }

  lemma {:induction false} MeaningfulMembers(parts: seq<string>, part: string)
    ensures part in Meaningful(parts) <==> part in parts && part != "" && part != "."
  {
    if parts != [] {
      MeaningfulMembers(parts[1..], part);
      assert parts == [parts[0]] + parts[1..];
    }
  }

  lemma JoinStarts(parts: seq<string>)
    requires parts != [] && parts[0] != ""
    ensures Join(parts, '/') != ""
  {
  }

  lemma JoinOne(name: string)
    ensures Join([name], '/') == name
  {
  }

  /** A single name is its own normal form. */
  lemma PlainPath(name: string)
    requires name != "" && name != "." && name != ".." && Lacks(name, '/')
    ensures SafeRel(name) == Some(name)
  {
    SplitPlain(name, '/');
    assert [name][1..] == [];
    assert Meaningful([name]) == [name];
    JoinOne(name);
    assert name[..1][0] == name[0];
    assert Root(name) + name == name && ".." !in [name];
  }

  /** A leading "./" does not survive normalisation. */
  lemma DottedPath(name: string)
    requires name != "" && name != "." && name != ".." && Lacks(name, '/')
    ensures SafeRel("./" + name) == Some(name)
  {
    assert "./" + name == "." + ['/'] + name;
    SplitAt(".", '/', name);
    SplitPlain(name, '/');
    assert [".", name][1..] == [name] && [name][1..] == [];
    assert Meaningful([name]) == [name];
    assert Meaningful([".", name]) == [name];
    JoinOne(name);
    assert ("./" + name)[..1] == ".";
    assert Root("./" + name) + name == name && ".." !in [name];
  }

  // ---- Where runs are put and where they are looked for ---------------------------------------------

  /** Where publish_run puts a run: the subdirectory goes in as it is written. */
  function PublishBase(prefix: string, subdir: string, run: string): string {
    TrimLeft(TrimSlashes(prefix) + "/" + subdir + "/" + run)
  }

  /** Where list_run_ids looks for runs: the subdirectory is normalised. */
  function ListBase(prefix: string, subdir: string): string { Key(TrimSlashes(prefix), Posix(subdir)) }

  /** The subdirectory is in normal form, and relative where there is no prefix in front of it. */
  predicate Aligned(prefix: string, subdir: string) {
    Posix(subdir) == subdir && (TrimSlashes(prefix) != "" || !StartsWith(subdir, "/"))
  }

  /** Writers put a run where readers look for it exactly when the subdirectory is aligned. */
  lemma PublishedWhereListed(prefix: string, subdir: string, run: string)
    ensures PublishBase(prefix, subdir, run) == ListBase(prefix, subdir) + "/" + run <==> Aligned(prefix, subdir)
  {
    hide Posix, TrimSlashes, Aligned;
    if TrimSlashes(prefix) != "" {
      PublishedUnderPrefix(prefix, subdir, run);
    } else {
      PublishedAtRoot(prefix, subdir, run);
    }
  }

  lemma PublishedUnderPrefix(prefix: string, subdir: string, run: string)
    requires TrimSlashes(prefix) != ""
    ensures PublishBase(prefix, subdir, run) == ListBase(prefix, subdir) + "/" + run <==> Aligned(prefix, subdir)
  {
    hide Posix;
    var p, tail := TrimSlashes(prefix), "/" + run;
    TrimLeftStart(prefix);
    TrimRightStart(TrimLeft(prefix));
    assert (p + "/" + subdir + tail)[0] == p[0];
    SameMiddle(p + "/", subdir, Posix(subdir), tail);
    assert ListBase(prefix, subdir) + "/" + run == (p + "/") + Posix(subdir) + tail;
    assert PublishBase(prefix, subdir, run) == (p + "/") + subdir + tail;
  }

  lemma PublishedAtRoot(prefix: string, subdir: string, run: string)
    requires TrimSlashes(prefix) == ""
    ensures PublishBase(prefix, subdir, run) == ListBase(prefix, subdir) + "/" + run <==> Aligned(prefix, subdir)
  {
    hide Posix, TrimSlashes;
    var tail := "/" + run;
    assert ListBase(prefix, subdir) + "/" + run == "" + Posix(subdir) + tail;
    assert "" + "/" + subdir + "/" + run == "/" + subdir + tail;
    assert ("/" + subdir + tail)[1..] == subdir + tail;
    assert PublishBase(prefix, subdir, run) == TrimLeft(subdir + tail);
    PosixStart(subdir);
    if subdir == "" || StartsWith(subdir, "/") {
      Unaligned(subdir, run);
    } else {
      SameMiddle("", subdir, Posix(subdir), tail);
      assert (subdir + tail)[0] == subdir[0];
      assert TrimLeft(subdir + tail) == "" + subdir + tail;
    }
  }

  lemma SameMiddle(head: string, a: string, b: string, tail: string)
    ensures head + a + tail == head + b + tail <==> a == b
  {
    if head + a + tail == head + b + tail {
      assert |a| == |b|;
      assert (head + a + tail)[|head|..|head| + |a|] == a && (head + b + tail)[|head|..|head| + |b|] == b;
    }
  }

  lemma PosixStart(path: string)
    ensures StartsWith(path, "/") ==> StartsWith(Posix(path), "/")
    ensures path == "" ==> Posix(path) == "."
  {
    var body := Join(Meaningful(Split(path, '/')), '/');
    if StartsWith(path, "/") { assert (Root(path) + body)[0] == '/'; }
  }

  lemma {:induction false} TrimLeftShorter(text: string)
    ensures |TrimLeft(text)| <= |text|
  {
    if text != "" && text[0] == '/' { TrimLeftShorter(text[1..]); }
  }

  /** Without a prefix an empty or absolute subdirectory is written to one place and read at
      another. */
  lemma Unaligned(subdir: string, run: string)
    requires subdir == "" || StartsWith(subdir, "/")
    ensures TrimLeft(subdir + ("/" + run)) != Posix(subdir) + ("/" + run)
  {
    hide Posix;
    PosixStart(subdir);
    TrimLeftStart(subdir + ("/" + run));
    if subdir == "" {
      assert subdir + ("/" + run) == "/" + run;
      TrimLeftShorter("/" + run);
    } else {
      assert (Posix(subdir) + ("/" + run))[0] == '/';
    }
  }

  function DirKey(base: string, run: string, rel: string): string { base + "/" + run + "/" + rel }

  /** The run a listed key commits, if any: below the base it has two parts, the second the
      marker. */
  function CommittedRun(base: string, marker: string, key: string): Option<string> {
    if !StartsWith(key, base + "/") then None
    else
      var parts := Split(key[|base| + 1..], '/');
      if |parts| == 2 && parts[1] == marker then Some(parts[0]) else None
  }

  /** A key commits a run exactly when it is the marker directly under that run's directory. */
  lemma CommitsIff(base: string, marker: string, key: string, run: string)
    requires Lacks(marker, '/')
    ensures CommittedRun(base, marker, key) == Some(run) <==> Lacks(run, '/') && key == DirKey(base, run, marker)
  {
    if CommittedRun(base, marker, key) == Some(run) { CommitsOnly(base, marker, key, run); }
    if Lacks(run, '/') && key == DirKey(base, run, marker) { MarkerCommits(base, marker, key, run); }
  }

  lemma CommitsOnly(base: string, marker: string, key: string, run: string)
    requires CommittedRun(base, marker, key) == Some(run)
    ensures Lacks(run, '/') && key == DirKey(base, run, marker)
  {
    hide Split, Join;
    var rel := key[|base| + 1..];
    JoinSplit(rel, '/');
    SplitLacks(rel, '/');
    var parts := Split(rel, '/');
    assert parts == [run, marker] && run in parts;
    JoinTwo(run, marker);
    assert key == key[..|base| + 1] + rel;
    assert (base + "/") + (run + ['/'] + marker) == DirKey(base, run, marker);
  }

  lemma JoinTwo(a: string, b: string)
    ensures Join([a, b], '/') == a + ['/'] + b
  {
    assert [a, b][1..] == [b];
  }

  lemma MarkerCommits(base: string, marker: string, key: string, run: string)
    requires Lacks(marker, '/') && Lacks(run, '/') && key == DirKey(base, run, marker)
    ensures CommittedRun(base, marker, key) == Some(run)
  {
    var head, rel := base + "/", run + ['/'] + marker;
    assert key == head + rel;
    SplitAt(run, '/', marker);
    SplitPlain(marker, '/');
    assert key[|base| + 1..] == rel;
  }

  /** Files of different runs have different keys. */
  lemma DirKeyInjective(base: string, run: string, rel: string, run': string, rel': string)
    requires Lacks(run, '/') && Lacks(run', '/') && DirKey(base, run, rel) == DirKey(base, run', rel')
    ensures run == run' && rel == rel'
  {
    var a, b := run + ['/'] + rel, run' + ['/'] + rel';
    var head := base + "/";
    assert DirKey(base, run, rel) == head + a && DirKey(base, run', rel') == head + b;
    assert (head + a)[|head|..] == a && (head + b)[|head|..] == b;
    SplitAt(run, '/', rel);
    SplitAt(run', '/', rel');
    assert Split(a, '/')[0] == run && Split(b, '/')[0] == run';
    assert a[|run| + 1..] == rel && b[|run'| + 1..] == rel';
  }
}
