/** GarterSnek.LazyPreUpdate: before each message the bot re-reads its
    indicator when the config file's write time differs from the recorded
    one, walks its scales from the back to drop those whose file is gone
    and refresh the rest, and finally loads a scale for every listed file
    whose name it does not know yet. */
module Registry {
  import opened Outcomes
  import opened Text
  import opened FilePaths
  import opened PseudoIni
  import opened Scales

  /** What the bot reads from outside: the files, the listing of the
      scales directory (in the order Directory.GetFiles returns it), and
      the config file's path and last write time. */
  datatype World = World(files: Files, listing: seq<string>, configPath: string, configStamp: int)

  /** The bot's state. `indicator` is null when the config has no such
      key; `configLastWrite` is the write time read at start-up. */
  datatype Bot = Bot(indicator: Option<string>, configLastWrite: int, scales: seq<Scale>)

  function ConfigFile(w: World): Option<string> {
    if w.configPath in w.files then Some(w.files[w.configPath]) else None
  }

  /** The config step. The recorded write time is never updated, so once
      the config has been written to, every later message reads it again. */
  function ReloadIndicator(b: Bot, w: World): (r: Partial<Bot>)
    ensures r.state.scales == b.scales && r.state.configLastWrite == b.configLastWrite
    ensures w.configPath !in w.files || w.configStamp == b.configLastWrite ==> r == Partial(b, None)
    ensures r.fault.Some? ==> r.state == b
  {
    if w.configPath in w.files && w.configStamp != b.configLastWrite then
      match ReadItem(ConfigFile(w), "indicator")
      case Fault(e) => Partial(b, Some(e))
      case Ok(v) => Partial(b.(indicator := v), None)
    else Partial(b, None)
  }

  /** When the config file exists and its write time differs from the
      recorded one, the indicator is what ReadItem answers for the key
      "indicator", and a fault from ReadItem escapes. */
  lemma ReloadReads(b: Bot, w: World)
    requires w.configPath in w.files && w.configStamp != b.configLastWrite
    ensures var r, read := ReloadIndicator(b, w), ReadItem(ConfigFile(w), "indicator");
            && (r.fault.None? <==> read.Ok?)
            && (read.Ok? ==> r.state == b.(indicator := read.value))
            && (read.Fault? ==> r == Partial(b, Some(read.error)))
  {
  }

  // ---------------------------------------------------------------------
  // Pass 1: from index Count-1 down to index 1.

  /** The paths of the scales, in order. */
  function Paths(ss: seq<Scale>): (r: seq<string>)
    ensures |r| == |ss|
    ensures forall j :: 0 <= j < |ss| ==> r[j] == ss[j].path
  {
    seq(|ss|, j requires 0 <= j < |ss| => ss[j].path)
  }

  lemma PathsUpdate(ss: seq<Scale>, i: int, s: Scale)
    requires 0 <= i < |ss| && s.path == ss[i].path
    ensures Paths(ss[i := s]) == Paths(ss)
  {
  }

  lemma PathsRemove(ss: seq<Scale>, i: int)
    requires 0 <= i < |ss|
    ensures Paths(ss[..i] + ss[i + 1..]) == Paths(ss)[..i] + Paths(ss)[i + 1..]
  {
    var a, b := Paths(ss[..i] + ss[i + 1..]), Paths(ss)[..i] + Paths(ss)[i + 1..];
    assert forall j :: 0 <= j < |a| ==> a[j] == b[j];
  }

  /** One iteration of the backward loop, at index `i`: a scale whose file
      is gone is removed, and then the scale now at index `i` is refreshed.
      When the removed scale was the last one, that index is out of range
      and the list indexer throws. What the iteration leaves is stated by
      VisitShape. */
  function Visit(ss: seq<Scale>, i: int, files: Files, lua: Lua): (r: Partial<seq<Scale>>)
    requires 0 < i < |ss|
    ensures |ss| - 1 <= |r.state| <= |ss|
    ensures r.fault.None? ==> i < |r.state|
  {
    var after := if ss[i].path !in files then ss[..i] + ss[i + 1..] else ss;
    if i >= |after| then Partial(after, Some(OutOfRange))
    else
      var rf := VerifyRefreshed(after[i], files, lua);
      Partial(after[i := rf.scale], rf.fault)
  }

  /** An iteration keeps the scales before its index; it drops the scale
      at its index exactly when that scale's file is gone, and keeps the
      others, in order, with their paths; when it completes, the scale now
      at its index is settled; and removing the last scale throws. */
  lemma VisitShape(ss: seq<Scale>, i: int, files: Files, lua: Lua)
    requires 0 < i < |ss|
    ensures var r := Visit(ss, i, files, lua);
            && (ss[i].path in files ==> |r.state| == |ss| && Paths(r.state) == Paths(ss))
            && (ss[i].path !in files ==>
                  |r.state| == |ss| - 1 && Paths(r.state) == Paths(ss)[..i] + Paths(ss)[i + 1..])
            && r.state[..i] == ss[..i]
            && (ss[i].path in files ==> r.state[i + 1..] == ss[i + 1..])
            && (ss[i].path !in files && i + 1 < |ss| ==> r.state[i + 1..] == ss[i + 2..])
            && (r.fault.None? ==> i < |r.state| && Settled(r.state[i], files, lua))
            && (i == |ss| - 1 && ss[i].path !in files ==> r == Partial(ss[..i], Some(OutOfRange)))
  {
    var after := if ss[i].path !in files then ss[..i] + ss[i + 1..] else ss;
    if ss[i].path !in files {
      PathsRemove(ss, i);
    }
    assert i == |ss| - 1 ==> ss[..i] + ss[i + 1..] == ss[..i];
    if i < |after| {
      var rf := VerifyRefreshed(after[i], files, lua);
      PathsUpdate(after, i, rf.scale);
    }
  }

  /** The backward loop from index `i` down to 1. */
  function Prune(ss: seq<Scale>, i: int, files: Files, lua: Lua): (r: Partial<seq<Scale>>)
    requires i < |ss|
    ensures |r.state| <= |ss|
    decreases i
  {
    if i <= 0 then Partial(ss, None)
    else
      var v := Visit(ss, i, files, lua);
      if v.fault.Some? then v else Prune(v.state, i - 1, files, lua)
  }

  /** The paths that name existing files, in order. */
  function Present(ps: seq<string>, files: Files): seq<string> {
    if |ps| == 0 then [] else (if ps[0] in files then [ps[0]] else []) + Present(ps[1..], files)
  }

  /** A path is kept exactly when it is among the paths and names a file. */
  lemma {:induction false} PresentMeans(ps: seq<string>, files: Files, p: string)
    ensures p in Present(ps, files) <==> p in ps && p in files
    decreases |ps|
  {
    if |ps| > 0 {
      PresentMeans(ps[1..], files, p);
      assert ps == [ps[0]] + ps[1..];
    }
  }

  lemma {:induction false} PresentAppend(a: seq<string>, b: seq<string>, files: Files)
    ensures Present(a + b, files) == Present(a, files) + Present(b, files)
    decreases |a|
  {
    if |a| == 0 {
      assert a + b == b;
    } else {
      assert (a + b)[1..] == a[1..] + b;
      PresentAppend(a[1..], b, files);
    }
  }

  /** One unfolding of the loop at an index past the first: it stops with
      the visit when the visit throws, and goes on from the index below
      otherwise. */
  lemma PruneCases(ss: seq<Scale>, i: int, files: Files, lua: Lua) returns (v: Partial<seq<Scale>>)
    requires 0 < i < |ss|
    ensures v == Visit(ss, i, files, lua)
    ensures v.fault.Some? ==> Prune(ss, i, files, lua) == v
    ensures v.fault.None? ==> i - 1 < |v.state| && Prune(ss, i, files, lua) == Prune(v.state, i - 1, files, lua)
  {
    v := Visit(ss, i, files, lua);
  }

  /** The first scale is never looked at: it is kept, unrefreshed, even
      when its file is gone. */
  lemma {:induction false} PruneKeepsFirst(ss: seq<Scale>, i: int, files: Files, lua: Lua)
    requires |ss| >= 1 && i < |ss|
    ensures |Prune(ss, i, files, lua).state| >= 1
    ensures Prune(ss, i, files, lua).state[0] == ss[0]
    decreases i
  {
    if i > 0 {
      var v := PruneCases(ss, i, files, lua);
      VisitShape(ss, i, files, lua);
      assert v.state[0] == v.state[..i][0] == ss[0];
      if v.fault.None? {
        PruneKeepsFirst(v.state, i - 1, files, lua);
      }
    }
  }

  /** Removing the last scale throws at once: the loop reads the index it
      has just removed. */
  lemma PruneFaultsOnMissingLast(ss: seq<Scale>, files: Files, lua: Lua)
    requires |ss| >= 2 && ss[|ss| - 1].path !in files
    ensures Prune(ss, |ss| - 1, files, lua) == Partial(ss[..|ss| - 1], Some(OutOfRange))
  {
    VisitShape(ss, |ss| - 1, files, lua);
  }

  /** The bookkeeping of one visited index whose file is gone. */
  lemma ShapeAfterRemoval(P: seq<string>, i: int, files: Files)
    requires 1 <= i < |P| - 1 && P[i] !in files
    ensures var Q := P[..i] + P[i + 1..];
            Q[..1] + Present(Q[1..i], files) + Q[i..]
            == P[..1] + Present(P[1..i + 1], files) + P[i + 1..]
  {
    var Q := P[..i] + P[i + 1..];
    assert Q[..1] == P[..1];
    assert Q[1..i] == P[1..i];
    assert Q[i..] == P[i + 1..];
    assert P[1..i + 1] == P[1..i] + [P[i]];
    PresentAppend(P[1..i], [P[i]], files);
    assert [P[i]][1..] == [];
  }

  /** The bookkeeping of one visited index whose file exists. */
  lemma ShapeAfterKeep(P: seq<string>, i: int, files: Files)
    requires 1 <= i < |P| && P[i] in files
    ensures P[..1] + Present(P[1..i], files) + P[i..]
            == P[..1] + Present(P[1..i + 1], files) + P[i + 1..]
  {
    assert P[i..] == [P[i]] + P[i + 1..];
    assert P[1..i + 1] == P[1..i] + [P[i]];
    PresentAppend(P[1..i], [P[i]], files);
    assert [P[i]][1..] == [];
  }

  /** When the backward loop completes, the scales left are the first
      one, then those of the visited indices whose files exist, then the
      ones past the starting index, all in their old order. */
  lemma {:induction false} PrunePaths(ss: seq<Scale>, i: int, files: Files, lua: Lua)
    requires 0 <= i < |ss|
    requires Prune(ss, i, files, lua).fault.None?
    ensures Paths(Prune(ss, i, files, lua).state)
            == Paths(ss)[..1] + Present(Paths(ss)[1..i + 1], files) + Paths(ss)[i + 1..]
    decreases i
  {
    var P := Paths(ss);
    if i == 0 {
      assert P[1..1] == [];
      assert P == P[..1] + P[1..];
    } else {
      var st := PrunePathsStep(ss, i, files, lua);
      PrunePaths(st, i - 1, files, lua);
    }
  }

  /** One step of PrunePaths: the visit at `i` moves the bookkeeping of
      the paths from index `i` to index `i - 1`. */
  lemma PrunePathsStep(ss: seq<Scale>, i: int, files: Files, lua: Lua) returns (st: seq<Scale>)
    requires 0 < i < |ss|
    requires Prune(ss, i, files, lua).fault.None?
    ensures i - 1 < |st| && Prune(ss, i, files, lua) == Prune(st, i - 1, files, lua)
    ensures var P, Q := Paths(ss), Paths(st);
            Q[..1] + Present(Q[1..i], files) + Q[i..]
            == P[..1] + Present(P[1..i + 1], files) + P[i + 1..]
  {
    var v := PruneCases(ss, i, files, lua);
    VisitShape(ss, i, files, lua);
    st := v.state;
    var P, Q := Paths(ss), Paths(st);
    if ss[i].path !in files {
      assert Q == P[..i] + P[i + 1..];
      ShapeAfterRemoval(P, i, files);
    } else {
      assert Q == P;
      ShapeAfterKeep(P, i, files);
    }
  }

  /** A scale is settled when its file exists and the hash it recorded is
      the hash of the file's text: refreshing it does nothing. */
  predicate Settled(s: Scale, files: Files, lua: Lua) {
    s.path in files && s.lastHash == lua.hash(files[s.path])
  }

  /** Refreshing the scale does not throw, unless its file is gone: the
      text is either the one already loaded or one that runs. */
  predicate Loads(s: Scale, files: Files, lua: Lua) {
    s.path in files ==> lua.hash(files[s.path]) == s.lastHash || lua.compile(files[s.path]).Compiles?
  }

  /** The loop completes when the last scale's file exists (or there is at
      most one scale) and every existing scale it visits refreshes cleanly;
      then every scale but the first is settled. */
  lemma {:induction false} PruneSucceeds(ss: seq<Scale>, i: int, files: Files, lua: Lua)
    requires 0 <= i < |ss|
    requires i == |ss| - 1 && i >= 1 ==> ss[i].path in files
    requires forall j :: 1 <= j <= i ==> Loads(ss[j], files, lua)
    requires forall j :: i < j < |ss| ==> Settled(ss[j], files, lua)
    ensures Prune(ss, i, files, lua).fault.None?
    ensures var st := Prune(ss, i, files, lua).state;
            forall j :: 1 <= j < |st| ==> Settled(st[j], files, lua)
    decreases i
  {
    if i > 0 {
      VisitSettles(ss, i, files, lua);
      var v := PruneCases(ss, i, files, lua);
      PruneSucceeds(v.state, i - 1, files, lua);
    }
  }

  /** One step of PruneSucceeds: the visit completes, and its result meets
      the conditions for the next index. */
  lemma VisitSettles(ss: seq<Scale>, i: int, files: Files, lua: Lua)
    requires 0 < i < |ss|
    requires i == |ss| - 1 ==> ss[i].path in files
    requires forall j :: 1 <= j <= i ==> Loads(ss[j], files, lua)
    requires forall j :: i < j < |ss| ==> Settled(ss[j], files, lua)
    ensures var v := Visit(ss, i, files, lua);
            && v.fault.None?
            && (forall j :: 1 <= j <= i - 1 ==> Loads(v.state[j], files, lua))
            && (forall j :: i - 1 < j < |v.state| ==> Settled(v.state[j], files, lua))
  {
    VisitShape(ss, i, files, lua);
    var v := Visit(ss, i, files, lua);
    var next := v.state;
    assert v.fault.None? by {
      if ss[i].path !in files {
        assert Settled(ss[i + 1], files, lua);
      }
    }
    assert forall j :: 1 <= j < i ==> next[j] == next[..i][j] == ss[j];
    if ss[i].path !in files {
      assert forall j :: i < j < |next| ==> next[j] == next[i + 1..][j - i - 1] == ss[j + 1];
    } else {
      assert forall j :: i < j < |next| ==> next[j] == next[i + 1..][j - i - 1] == ss[j];
    }
  }

  /** A visit that completes leaves every scale from its index on settled,
      when those past its index were. */
  lemma VisitKeepsSettled(ss: seq<Scale>, i: int, files: Files, lua: Lua)
    requires 0 < i < |ss|
    requires forall j :: i < j < |ss| ==> Settled(ss[j], files, lua)
    requires Visit(ss, i, files, lua).fault.None?
    ensures var st := Visit(ss, i, files, lua).state;
            forall j :: i - 1 < j < |st| ==> Settled(st[j], files, lua)
  {
    VisitShape(ss, i, files, lua);
    var st := Visit(ss, i, files, lua).state;
    if ss[i].path !in files {
      assert forall j :: i < j < |st| ==> st[j] == st[i + 1..][j - i - 1] == ss[j + 1];
    } else {
      assert forall j :: i < j < |st| ==> st[j] == st[i + 1..][j - i - 1] == ss[j];
    }
  }

  /** A loop that completes went through a visit that completed. */
  lemma PruneStep(ss: seq<Scale>, i: int, files: Files, lua: Lua)
    requires 0 < i < |ss|
    requires Prune(ss, i, files, lua).fault.None?
    ensures Visit(ss, i, files, lua).fault.None?
    ensures i - 1 < |Visit(ss, i, files, lua).state|
    ensures Prune(ss, i, files, lua) == Prune(Visit(ss, i, files, lua).state, i - 1, files, lua)
  {
  }

  /** One completed visit settles the scale it visits. */
  lemma PruneStepSettled(ss: seq<Scale>, i: int, files: Files, lua: Lua) returns (st: seq<Scale>)
    requires 0 < i < |ss|
    requires forall j :: i < j < |ss| && j >= 1 ==> Settled(ss[j], files, lua)
    requires Prune(ss, i, files, lua).fault.None?
    ensures i - 1 < |st| && Prune(ss, i, files, lua) == Prune(st, i - 1, files, lua)
    ensures forall j :: i - 1 < j < |st| && j >= 1 ==> Settled(st[j], files, lua)
  {
    PruneStep(ss, i, files, lua);
    VisitKeepsSettled(ss, i, files, lua);
    st := Visit(ss, i, files, lua).state;
  }

  /** Whenever the loop completes, every scale but the first is settled. */
  lemma {:induction false} PruneDone(ss: seq<Scale>, i: int, files: Files, lua: Lua)
    requires i < |ss|
    requires forall j :: i < j < |ss| && j >= 1 ==> Settled(ss[j], files, lua)
    requires Prune(ss, i, files, lua).fault.None?
    ensures var st := Prune(ss, i, files, lua).state;
            forall j :: 1 <= j < |st| ==> Settled(st[j], files, lua)
    decreases i
  {
    if i > 0 {
      var st := PruneStepSettled(ss, i, files, lua);
      PruneDone(st, i - 1, files, lua);
    }
  }

  /** With every scale but the first settled, the loop changes nothing. */
  lemma {:induction false} PruneSettled(ss: seq<Scale>, i: int, files: Files, lua: Lua)
    requires i < |ss|
    requires forall j :: 1 <= j < |ss| ==> Settled(ss[j], files, lua)
    ensures Prune(ss, i, files, lua) == Partial(ss, None)
    decreases i
  {
    if i > 0 {
      assert Settled(ss[i], files, lua);
      assert VerifyRefreshed(ss[i], files, lua) == Refresh(ss[i], false, None);
      assert ss[i := ss[i]] == ss;
      assert Visit(ss, i, files, lua) == Partial(ss, None);
      PruneSettled(ss, i - 1, files, lua);
    }
  }

  // ---------------------------------------------------------------------
  // Pass 2: the directory listing.

  /** The key a file is matched under in the listing loop: its name
      without extension, trimmed and lower-cased. It is both
      `Scale.Name.ToLowerInvariant()` of a scale stored at that path and
      `item.ToLowerInvariant()` of a listed file. */
  function PathKey(path: string): string {
    LowerStr(Trim(FileStem(path)))
  }

  lemma PathKeyIsNameKey(s: Scale)
    ensures PathKey(s.path) == LowerStr(Name(s))
  {
  }

  // The loop below is written for any `key`; the bot runs it with PathKey.
  // Nothing the lemmas about it prove depends on how the key is computed.

  /** The inner loop over the scales: some scale's file has the key of
      the listed file `path`. */
  predicate Known(key: string -> string, ss: seq<Scale>, path: string)
    decreases |ss|
  {
    |ss| > 0 && (key(ss[0].path) == key(path) || Known(key, ss[1..], path))
  }

  lemma {:induction false} KnownMeans(key: string -> string, ss: seq<Scale>, path: string)
    ensures Known(key, ss, path) <==> exists j :: 0 <= j < |ss| && key(ss[j].path) == key(path)
    decreases |ss|
  {
    if |ss| > 0 {
      KnownMeans(key, ss[1..], path);
      assert forall j :: 1 <= j < |ss| ==> ss[j] == ss[1..][j - 1];
    }
  }

  /** A scale stays known when more are appended. */
  lemma {:induction false} KnownAppend(key: string -> string, ss: seq<Scale>, more: seq<Scale>, path: string)
    requires Known(key, ss, path)
    ensures Known(key, ss + more, path)
    decreases |ss|
  {
    if key(ss[0].path) != key(path) {
      assert (ss + more)[1..] == ss[1..] + more;
      KnownAppend(key, ss[1..], more, path);
    }
  }

  /** A listed file's own scale makes it known. */
  lemma {:induction false} KnownLast(key: string -> string, ss: seq<Scale>, s: Scale)
    ensures Known(key, ss + [s], s.path)
    decreases |ss|
  {
    if |ss| > 0 && key(ss[0].path) != key(s.path) {
      assert (ss + [s])[1..] == ss[1..] + [s];
      KnownLast(key, ss[1..], s);
    }
  }

  /** The listing loop: a file whose key is not known yet gets a new
      scale appended, so a later file with the same key is skipped; a
      scale that throws while loading stops the loop. */
  function AddNew(key: string -> string, ss: seq<Scale>, listing: seq<string>, files: Files, lua: Lua)
    : (r: Partial<seq<Scale>>)
    ensures |r.state| >= |ss| && r.state[..|ss|] == ss
    decreases |listing|
  {
    if |listing| == 0 then Partial(ss, None)
    else if Known(key, ss, listing[0]) then AddNew(key, ss, listing[1..], files, lua)
    else
      match NewScale(listing[0], files, lua)
      case Fault(e) => Partial(ss, Some(e))
      case Ok(s) =>
        var r := AddNew(key, ss + [s], listing[1..], files, lua);
        assert r.state[..|ss|] == (ss + [s])[..|ss|];
        r
  }

  /** No two scales share a key. */
  predicate Distinct(key: string -> string, ss: seq<Scale>) {
    forall a, b :: 0 <= a < b < |ss| ==> key(ss[a].path) != key(ss[b].path)
  }

  lemma DistinctAppend(key: string -> string, ss: seq<Scale>, s: Scale)
    requires Distinct(key, ss) && !Known(key, ss, s.path)
    ensures Distinct(key, ss + [s])
  {
    KnownMeans(key, ss, s.path);
    var t := ss + [s];
    forall a, b | 0 <= a < b < |t|
      ensures key(t[a].path) != key(t[b].path)
    {
      assert t[a] == ss[a];
      if b < |ss| {
        assert t[b] == ss[b];
      }
    }
  }

  /** A registry without two equal keys keeps that property: a listed
      file is only loaded when no scale has its key, including the ones
      loaded earlier in the same loop. */
  lemma {:induction false} AddNewDistinct(key: string -> string, ss: seq<Scale>, listing: seq<string>,
                                          files: Files, lua: Lua)
    requires Distinct(key, ss)
    ensures Distinct(key, AddNew(key, ss, listing, files, lua).state)
    decreases |listing|
  {
    if |listing| > 0 {
      var p := listing[0];
      if Known(key, ss, p) {
        AddNewDistinct(key, ss, listing[1..], files, lua);
      } else if NewScale(p, files, lua).Ok? {
        var s := NewScale(p, files, lua).value;
        DistinctAppend(key, ss, s);
        AddNewDistinct(key, ss + [s], listing[1..], files, lua);
      }
    }
  }

  /** Every entry from index `n` on has a key no earlier entry has. */
  predicate OnlyUnknownAdded(key: string -> string, n: nat, st: seq<Scale>) {
    forall j, a :: n <= j < |st| && 0 <= a < j ==> key(st[a].path) != key(st[j].path)
  }

  /** Whatever the registry held before, an entry the listing loop adds
      has a key no earlier entry has, whether that entry was there
      before the loop or added by it. */
  lemma {:induction false} AddNewOnlyUnknown(key: string -> string, ss: seq<Scale>, listing: seq<string>,
                                             files: Files, lua: Lua)
    ensures OnlyUnknownAdded(key, |ss|, AddNew(key, ss, listing, files, lua).state)
    decreases |listing|
  {
    if |listing| > 0 {
      var p := listing[0];
      if Known(key, ss, p) {
        assert AddNew(key, ss, listing, files, lua) == AddNew(key, ss, listing[1..], files, lua);
        AddNewOnlyUnknown(key, ss, listing[1..], files, lua);
      } else if NewScale(p, files, lua).Ok? {
        var s := NewScale(p, files, lua).value;
        var st := AddNew(key, ss, listing, files, lua).state;
        assert st == AddNew(key, ss + [s], listing[1..], files, lua).state;
        AddNewOnlyUnknown(key, ss + [s], listing[1..], files, lua);
        assert st[..|ss| + 1] == ss + [s];
        KnownMeans(key, ss, p);
        forall j, a | |ss| <= j < |st| && 0 <= a < j
          ensures key(st[a].path) != key(st[j].path)
        {
          if j == |ss| {
            assert st[j] == (ss + [s])[j] && st[a] == (ss + [s])[a];
          }
        }
      } else {
        assert AddNew(key, ss, listing, files, lua).state == ss;
      }
    }
  }

  /** The state the loop continues from after its first listed file. */
  function AfterFirst(key: string -> string, ss: seq<Scale>, listing: seq<string>, files: Files, lua: Lua)
    : seq<Scale>
    requires |listing| > 0
  {
    if Known(key, ss, listing[0]) || NewScale(listing[0], files, lua).Fault? then ss
    else ss + [NewScale(listing[0], files, lua).value]
  }

  /** Unless the first listed file throws, the loop goes on from AfterFirst. */
  lemma AddNewStep(key: string -> string, ss: seq<Scale>, listing: seq<string>, files: Files, lua: Lua)
    requires |listing| > 0
    requires Known(key, ss, listing[0]) || NewScale(listing[0], files, lua).Ok?
    ensures AddNew(key, ss, listing, files, lua)
            == AddNew(key, AfterFirst(key, ss, listing, files, lua), listing[1..], files, lua)
  {
  }

  /** When the loop completes, every listed file's key is known. */
  lemma {:induction false} AddNewCovers(key: string -> string, ss: seq<Scale>, listing: seq<string>,
                                        files: Files, lua: Lua)
    requires AddNew(key, ss, listing, files, lua).fault.None?
    ensures forall p :: p in listing ==> Known(key, AddNew(key, ss, listing, files, lua).state, p)
    decreases |listing|
  {
    var r := AddNew(key, ss, listing, files, lua);
    if |listing| > 0 {
      var p := listing[0];
      var t := AfterFirst(key, ss, listing, files, lua);
      assert NewScale(p, files, lua).Fault? ==> Known(key, ss, p);
      AddNewStep(key, ss, listing, files, lua);
      AddNewCovers(key, t, listing[1..], files, lua);
      assert Known(key, t, p) by {
        if !Known(key, ss, p) {
          KnownLast(key, ss, NewScale(p, files, lua).value);
        }
      }
      assert r.state == t + r.state[|t|..];
      KnownAppend(key, t, r.state[|t|..], p);
      assert forall q :: q in listing ==> q == p || q in listing[1..];
    }
  }

  /** `a` is `b` with some elements left out. */
  predicate Subsequence(a: seq<string>, b: seq<string>)
    decreases |b|
  {
    |a| == 0 || (|b| > 0 && ((a[0] == b[0] && Subsequence(a[1..], b[1..])) || Subsequence(a, b[1..])))
  }

  lemma PathsSuffix(st: seq<Scale>, n: nat, s: Scale)
    requires n < |st| && st[n] == s
    ensures Paths(st[n..]) == [s.path] + Paths(st[n + 1..])
  {
    assert st[n..][1..] == st[n + 1..];
  }

  /** The scales the loop appends come from the listing, in listing order. */
  lemma {:induction false} AddNewFromListing(key: string -> string, ss: seq<Scale>, listing: seq<string>,
                                             files: Files, lua: Lua)
    ensures var st := AddNew(key, ss, listing, files, lua).state;
            Subsequence(Paths(st[|ss|..]), listing)
    decreases |listing|
  {
    var st := AddNew(key, ss, listing, files, lua).state;
    if |listing| == 0 {
      assert Paths(st[|ss|..]) == [];
    } else if Known(key, ss, listing[0]) {
      AddNewStep(key, ss, listing, files, lua);
      AddNewFromListing(key, ss, listing[1..], files, lua);
    } else if NewScale(listing[0], files, lua).Fault? {
      assert Paths(st[|ss|..]) == [];
    } else {
      var s := NewScale(listing[0], files, lua).value;
      var t := ss + [s];
      AddNewStep(key, ss, listing, files, lua);
      AddNewFromListing(key, t, listing[1..], files, lua);
      assert st[|ss|] == t[|ss|] == s;
      PathsSuffix(st, |ss|, s);
    }
  }

  /** Every scale the loop appends is settled. */
  lemma {:induction false} AddNewSettled(key: string -> string, ss: seq<Scale>, listing: seq<string>,
                                         files: Files, lua: Lua)
    ensures var st := AddNew(key, ss, listing, files, lua).state;
            forall j :: |ss| <= j < |st| ==> Settled(st[j], files, lua)
    decreases |listing|
  {
    if |listing| == 0 {
    } else if Known(key, ss, listing[0]) {
      AddNewStep(key, ss, listing, files, lua);
      AddNewSettled(key, ss, listing[1..], files, lua);
    } else if NewScale(listing[0], files, lua).Ok? {
      var s := NewScale(listing[0], files, lua).value;
      var t := ss + [s];
      var st := AddNew(key, t, listing[1..], files, lua).state;
      AddNewStep(key, ss, listing, files, lua);
      AddNewSettled(key, t, listing[1..], files, lua);
      assert st[|ss|] == t[|ss|] == s;
    }
  }

  /** The loop only throws what loading one of the listed files threw. */
  lemma {:induction false} AddNewFaultFrom(key: string -> string, ss: seq<Scale>, listing: seq<string>,
                                           files: Files, lua: Lua)
    ensures var r := AddNew(key, ss, listing, files, lua);
            r.fault.Some? ==> exists p :: p in listing && NewScale(p, files, lua) == Fault(r.fault.value)
    decreases |listing|
  {
    if |listing| > 0 {
      var p := listing[0];
      if Known(key, ss, p) || NewScale(p, files, lua).Ok? {
        AddNewStep(key, ss, listing, files, lua);
        AddNewFaultFrom(key, AfterFirst(key, ss, listing, files, lua), listing[1..], files, lua);
        assert forall q :: q in listing[1..] ==> q in listing;
      } else {
        assert p in listing;
      }
    }
  }

  /** With every listed file's key known, the loop changes nothing. */
  lemma {:induction false} AddNewKnown(key: string -> string, ss: seq<Scale>, listing: seq<string>,
                                       files: Files, lua: Lua)
    requires forall p :: p in listing ==> Known(key, ss, p)
    ensures AddNew(key, ss, listing, files, lua) == Partial(ss, None)
    decreases |listing|
  {
    if |listing| > 0 {
      assert listing[0] in listing;
      assert forall p :: p in listing[1..] ==> p in listing;
      AddNewKnown(key, ss, listing[1..], files, lua);
    }
  }

  // ---------------------------------------------------------------------
  // The whole update.

  /** Both passes over the scales: the backward loop from the last index,
      then the listing loop. */
  function Rescan(key: string -> string, ss: seq<Scale>, w: World, lua: Lua): (r: Partial<seq<Scale>>)
    ensures |ss| >= 1 ==> |r.state| >= 1 && r.state[0] == ss[0]
  {
    var p := Prune(ss, |ss| - 1, w.files, lua);
    assert |ss| >= 1 ==> |p.state| >= 1 && p.state[0] == ss[0] by {
      if |ss| >= 1 {
        PruneKeepsFirst(ss, |ss| - 1, w.files, lua);
      }
    }
    if p.fault.Some? then p else AddNew(key, p.state, w.listing, w.files, lua)
  }

  /** What the passes leave when they complete: the first scale, then
      the later ones whose files still exist, in their old order, then new
      scales for some of the listed files, in listing order. */
  lemma RescanPaths(key: string -> string, ss: seq<Scale>, w: World, lua: Lua)
    requires |ss| >= 1
    requires Rescan(key, ss, w, lua).fault.None?
    ensures var st := Rescan(key, ss, w, lua).state;
            var kept := Paths(ss)[..1] + Present(Paths(ss)[1..], w.files);
            && |kept| <= |st|
            && Paths(st[..|kept|]) == kept
            && Subsequence(Paths(st[|kept|..]), w.listing)
  {
    var pr := Prune(ss, |ss| - 1, w.files, lua);
    assert pr.fault.None?;
    var p := pr.state;
    assert Rescan(key, ss, w, lua) == AddNew(key, p, w.listing, w.files, lua);
    PrunePaths(ss, |ss| - 1, w.files, lua);
    var P := Paths(ss);
    assert P[|ss|..] == [] && P[1..|ss|] == P[1..];
    assert Paths(p) == P[..1] + Present(P[1..], w.files);
    AddNewFromListing(key, p, w.listing, w.files, lua);
  }

  /** LazyPreUpdate. An exception in any step escapes, leaving the changes
      made before it. */
  function LazyPreUpdate(b: Bot, w: World, lua: Lua): (r: Partial<Bot>)
    ensures r.state.configLastWrite == b.configLastWrite
    ensures |b.scales| >= 1 ==> |r.state.scales| >= 1 && r.state.scales[0] == b.scales[0]
  {
    var c := ReloadIndicator(b, w);
    if c.fault.Some? then c
    else
      var s := Rescan(PathKey, b.scales, w, lua);
      Partial(c.state.(scales := s.state), s.fault)
  }

  /** A completed config step, repeated with the same world, reads the
      same indicator again. */
  lemma ReloadAgain(b: Bot, w: World, scales: seq<Scale>)
    requires ReloadIndicator(b, w).fault.None?
    ensures var b1 := ReloadIndicator(b, w).state.(scales := scales);
            ReloadIndicator(b1, w) == Partial(b1, None)
  {
  }

  /** The two passes, repeated on what they left, change nothing. */
  lemma RescanAgain(key: string -> string, ss: seq<Scale>, w: World, lua: Lua)
    requires Rescan(key, ss, w, lua).fault.None?
    ensures var a := Rescan(key, ss, w, lua).state;
            Rescan(key, a, w, lua) == Partial(a, None)
  {
    var pr := Prune(ss, |ss| - 1, w.files, lua);
    assert pr.fault.None?;
    var p := pr.state;
    assert Rescan(key, ss, w, lua) == AddNew(key, p, w.listing, w.files, lua);
    var a := AddNew(key, p, w.listing, w.files, lua).state;
    PruneDone(ss, |ss| - 1, w.files, lua);
    AddNewSettled(key, p, w.listing, w.files, lua);
    forall j | 1 <= j < |a|
      ensures Settled(a[j], w.files, lua)
    {
      if j < |p| {
        assert a[j] == a[..|p|][j] == p[j];
      }
    }
    PruneSettled(a, |a| - 1, w.files, lua);
    AddNewCovers(key, p, w.listing, w.files, lua);
    AddNewKnown(key, a, w.listing, w.files, lua);
    assert Rescan(key, a, w, lua) == AddNew(key, a, w.listing, w.files, lua);
  }

  /** Once an update completes, a second one with nothing changed outside
      changes nothing and completes: every scale but the first is settled
      and every listed file's name is known. */
  lemma UpdateIdempotent(b: Bot, w: World, lua: Lua)
    requires LazyPreUpdate(b, w, lua).fault.None?
    ensures var b1 := LazyPreUpdate(b, w, lua).state;
            LazyPreUpdate(b1, w, lua) == Partial(b1, None)
  {
    var b1 := LazyPreUpdate(b, w, lua).state;
    ReloadAgain(b, w, b1.scales);
    RescanAgain(PathKey, b.scales, w, lua);
  }

  lemma RescanStopsOnMissingLast(key: string -> string, ss: seq<Scale>, w: World, lua: Lua)
    requires |ss| >= 2 && ss[|ss| - 1].path !in w.files
    ensures Rescan(key, ss, w, lua) == Partial(ss[..|ss| - 1], Some(OutOfRange))
  {
    PruneFaultsOnMissingLast(ss, w.files, lua);
  }

  /** A scale past the first whose file is gone, when it is the last one,
      stops the update with the removal already made. */
  lemma UpdateStopsOnMissingLast(b: Bot, w: World, lua: Lua)
    requires ReloadIndicator(b, w).fault.None?
    requires |b.scales| >= 2 && b.scales[|b.scales| - 1].path !in w.files
    ensures LazyPreUpdate(b, w, lua).fault == Some(OutOfRange)
    ensures LazyPreUpdate(b, w, lua).state.scales == b.scales[..|b.scales| - 1]
  {
    UpdateRescans(b, w, lua);
    RescanStopsOnMissingLast(PathKey, b.scales, w, lua);
    var s := Rescan(PathKey, b.scales, w, lua);
    var u := LazyPreUpdate(b, w, lua);
    assert u.fault == s.fault && u.state.scales == s.state;
  }

  /** Once the config step completes, the update is the two passes over
      the scales of the bot it left. */
  lemma UpdateRescans(b: Bot, w: World, lua: Lua)
    requires ReloadIndicator(b, w).fault.None?
    ensures var s := Rescan(PathKey, b.scales, w, lua);
            LazyPreUpdate(b, w, lua) == Partial(ReloadIndicator(b, w).state.(scales := s.state), s.fault)
  {
  }
}
