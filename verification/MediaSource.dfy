/** The media-source manager (services/mediasource/sentigon_mediasource/manager.py): fresh stream paths, the
    persisted configuration and the auto-onboarding of pushed streams. Calls run one at a time. */
module MediaSource {
  import opened Common

  // ----- Decimal suffixes -----

  function Decimal(n: nat): (s: string)
    ensures s != ""
  {
    var digit := ['0', '1', '2', '3', '4', '5', '6', '7', '8', '9'][n % 10];
    if n < 10 then [digit] else Decimal(n / 10) + [digit]
  }

  function Value(s: string): nat {
    if s == "" then 0 else
      Value(s[..|s| - 1]) * 10 + if '0' <= s[|s| - 1] <= '9' then (s[|s| - 1] as int) - ('0' as int) else 0
  }

  lemma {:induction false} ValueOfDecimal(n: nat)
    ensures Value(Decimal(n)) == n
  {
    var digit := ['0', '1', '2', '3', '4', '5', '6', '7', '8', '9'][n % 10];
    assert (digit as int) - ('0' as int) == n % 10;
    if n >= 10 {
      ValueOfDecimal(n / 10);
      assert Decimal(n)[..|Decimal(n)| - 1] == Decimal(n / 10);
    } else {
      assert [digit][..0] == "";
    }
  }

  // ----- The path search of add_stream_source -----

  /** The n-th path tried: the base itself, then base_2, base_3 and so on. */
  function Candidate(base: string, n: nat): string {
    if n == 0 then base else base + "_" + Decimal(n + 1)
  }

  lemma SameSuffix(prefix: string, x: string, y: string)
    requires prefix + x == prefix + y
    ensures x == y
  {
    assert (prefix + x)[|prefix|..] == x;
    assert (prefix + y)[|prefix|..] == y;
  }

  lemma CandidateLength(base: string, n: nat)
    requires n > 0
    ensures |Candidate(base, n)| > |base|
  {
  }

  lemma CandidatesDiffer(base: string, m: nat, n: nat)
    requires Candidate(base, m) == Candidate(base, n)
    ensures m == n
  {
    if m > 0 && n > 0 {
      hide Decimal;
      SameSuffix(base + "_", Decimal(m + 1), Decimal(n + 1));
      ValueOfDecimal(m + 1);
      ValueOfDecimal(n + 1);
    } else if m > 0 {
      CandidateLength(base, m);
    } else if n > 0 {
      CandidateLength(base, n);
    }
  }

  datatype Kind = File | Usb | Stream | Push

  /** What the configuration file keeps of a source. */
  datatype Entry = Entry(name: string, kind: Kind, url: string, path: string)

  datatype Source = Source(entry: Entry, cameraId: Option<string>)

  predicate PathUsed(sources: seq<Source>, path: string) {
    exists i :: 0 <= i < |sources| && sources[i].entry.path == path
  }

  predicate UrlUsed(sources: seq<Source>, url: string) {
    exists i :: 0 <= i < |sources| && sources[i].entry.url == url
  }

  function PathSet(sources: seq<Source>): (paths: set<string>)
    ensures forall p :: p in paths <==> PathUsed(sources, p)
    ensures |paths| <= |sources|
  {
    if sources == [] then {} else
      var front := sources[..|sources| - 1];
      assert forall p :: PathUsed(sources, p) <==> PathUsed(front, p) || p == sources[|sources| - 1].entry.path by {
        forall p | PathUsed(front, p) ensures PathUsed(sources, p) {
          var i :| 0 <= i < |front| && front[i].entry.path == p;
          assert sources[i].entry.path == p;
        }
      }
      PathSet(front) + {sources[|sources| - 1].entry.path}
  }

  lemma SubsetSize(a: set<string>, b: set<string>)
    requires a <= b
    ensures |a| <= |b|
  {
    if a != {} {
      var x :| x in a;
      SubsetSize(a - {x}, b - {x});
    }
  }

  /** The first n paths tried. */
  function Tried(base: string, n: nat): (paths: set<string>)
    ensures forall k :: 0 <= k < n ==> Candidate(base, k) in paths
  {
    if n == 0 then {} else Tried(base, n - 1) + {Candidate(base, n - 1)}
  }

  /** They are all different. */
  lemma {:induction false} TriedSize(base: string, n: nat, m: nat)
    requires n <= m
    ensures |Tried(base, n)| == n && (Candidate(base, m) !in Tried(base, n))
  {
    hide Candidate;
    if n > 0 {
      TriedSize(base, n - 1, n - 1);
      TriedSize(base, n - 1, m);
      if Candidate(base, m) == Candidate(base, n - 1) {
        CandidatesDiffer(base, m, n - 1);
      }
    }
  }

  /** If the first n tries were all in use, there are at least n sources. */
  lemma TriesBounded(sources: seq<Source>, base: string, n: nat)
    requires forall k :: 0 <= k < n ==> PathUsed(sources, Candidate(base, k))
    ensures n <= |sources|
  {
    hide Candidate;
    TriedSubset(sources, base, n);
    TriedSize(base, n, n);
    SubsetSize(Tried(base, n), PathSet(sources));
  }

  lemma {:induction false} TriedSubset(sources: seq<Source>, base: string, n: nat)
    requires forall k :: 0 <= k < n ==> PathUsed(sources, Candidate(base, k))
    ensures Tried(base, n) <= PathSet(sources)
  {
    hide Candidate, PathUsed;
    if n > 0 {
      TriedSubset(sources, base, n - 1);
    }
  }

  /** The first suffix from n on whose path is free: every smaller one is in use. */
  function FirstFree(sources: seq<Source>, base: string, n: nat): (r: nat)
    requires forall k :: 0 <= k < n ==> PathUsed(sources, Candidate(base, k))
    ensures n <= r <= |sources| && !PathUsed(sources, Candidate(base, r))
    ensures forall k :: 0 <= k < r ==> PathUsed(sources, Candidate(base, k))
    decreases |sources| - n
  {
    TriesBounded(sources, base, n);
    if PathUsed(sources, Candidate(base, n)) then
      TriesBounded(sources, base, n + 1);
      FirstFree(sources, base, n + 1)
    else n
  }

  /** The path is the base if no source has it, and otherwise the base with the smallest number from 2 on that is
      free. */
  ghost predicate FirstFreePath(sources: seq<Source>, base: string, path: string) {
    && (forall i :: 0 <= i < |sources| ==> sources[i].entry.path != path)
    && (path == base
        || (PathUsed(sources, base)
            && exists n :: 2 <= n && path == Numbered(base, n)
                           && forall m :: 2 <= m < n ==> PathUsed(sources, Numbered(base, m))))
  }

  function Numbered(base: string, n: nat): string {
    base + "_" + Decimal(n)
  }

  lemma CandidateIsFirstFree(sources: seq<Source>, base: string, r: nat)
    requires !PathUsed(sources, Candidate(base, r))
    requires forall k :: 0 <= k < r ==> PathUsed(sources, Candidate(base, k))
    ensures FirstFreePath(sources, base, Candidate(base, r))
  {
    var path := Candidate(base, r);
    forall i | 0 <= i < |sources| ensures sources[i].entry.path != path {
      assert sources[i].entry.path == path ==> PathUsed(sources, path);
    }
    if r > 0 {
      assert PathUsed(sources, Candidate(base, 0));
      assert path == Numbered(base, r + 1);
      forall m | 2 <= m < r + 1 ensures PathUsed(sources, Numbered(base, m)) {
        assert PathUsed(sources, Candidate(base, m - 1));
      }
    }
  }

  /** The suffix search ends within one more try than there are sources, with the first path not in use. */
  method FreshPath(sources: seq<Source>, base: string) returns (path: string)
    ensures path == Candidate(base, FirstFree(sources, base, 0))
    ensures FirstFreePath(sources, base, path)
  {
    path := base;
    var i := 2;
    ghost var tries := 0;
    while PathUsed(sources, path)
      invariant path == Candidate(base, tries) && i == tries + 2
      invariant forall k :: 0 <= k < tries ==> PathUsed(sources, Candidate(base, k))
      invariant FirstFree(sources, base, 0) == FirstFree(sources, base, tries)
      decreases |sources| - tries
    {
      TriesBounded(sources, base, tries + 1);
      path, i := base + "_" + Decimal(i), i + 1;
      tries := tries + 1;
    }
    CandidateIsFirstFree(sources, base, tries);
  }

  // ----- The configuration file and the source list -----

  ghost predicate DistinctPaths(sources: seq<Source>) {
    forall i, j :: 0 <= i < j < |sources| ==> sources[i].entry.path != sources[j].entry.path
  }

  /** The sources the configuration file is meant to hold: all but the pushed ones. */
  function Persistent(sources: seq<Source>): seq<Entry> {
    if sources == [] then [] else
      var s := sources[|sources| - 1];
      Persistent(sources[..|sources| - 1]) + if s.entry.kind.Push? then [] else [s.entry]
  }

  function WithoutPath(sources: seq<Source>, path: string): seq<Source> {
    if sources == [] then [] else
      var s := sources[|sources| - 1];
      WithoutPath(sources[..|sources| - 1], path) + if s.entry.path == path then [] else [s]
  }

  function EntriesWithoutPath(entries: seq<Entry>, path: string): seq<Entry> {
    if entries == [] then [] else
      var e := entries[|entries| - 1];
      EntriesWithoutPath(entries[..|entries| - 1], path) + if e.path == path then [] else [e]
  }

  function Loaded(config: seq<Entry>): (sources: seq<Source>)
    ensures |sources| == |config|
  {
    seq(|config|, i requires 0 <= i < |config| => Source(config[i], None))
  }

  lemma PersistentSnoc(sources: seq<Source>, s: Source)
    ensures Persistent(sources + [s]) == Persistent(sources) + if s.entry.kind.Push? then [] else [s.entry]
  {
    assert (sources + [s])[..|sources|] == sources;
  }

  lemma {:induction false} WithoutPathPaths(sources: seq<Source>, path: string)
    requires DistinctPaths(sources)
    ensures DistinctPaths(WithoutPath(sources, path))
    ensures forall p :: PathUsed(WithoutPath(sources, path), p) <==> PathUsed(sources, p) && p != path
  {
    if sources != [] {
      var front, s := sources[..|sources| - 1], sources[|sources| - 1];
      WithoutPathPaths(front, path);
      var w := WithoutPath(front, path);
      PathUsedSnoc(front, s);
      PathUsedSnoc(w, s);
      assert front + [s] == sources;
      assert w + [] == w;
      assert !PathUsed(front, s.entry.path);
      assert forall i :: 0 <= i < |w| ==> PathUsed(w, w[i].entry.path);
    }
  }

  lemma PathUsedSnoc(sources: seq<Source>, s: Source)
    ensures forall p :: PathUsed(sources + [s], p) <==> PathUsed(sources, p) || p == s.entry.path
  {
    forall p ensures PathUsed(sources + [s], p) <==> PathUsed(sources, p) || p == s.entry.path {
      if PathUsed(sources, p) {
        var i :| 0 <= i < |sources| && sources[i].entry.path == p;
        assert (sources + [s])[i].entry.path == p;
      }
      assert (sources + [s])[|sources|].entry.path == s.entry.path;
    }
  }

  lemma WithoutPathSnoc(sources: seq<Source>, s: Source, path: string)
    ensures WithoutPath(sources + [s], path) == WithoutPath(sources, path) + if s.entry.path == path then [] else [s]
  {
    assert (sources + [s])[..|sources|] == sources;
  }

  lemma EntriesSnoc(entries: seq<Entry>, e: Entry, path: string)
    ensures EntriesWithoutPath(entries + [e], path) == EntriesWithoutPath(entries, path) + if e.path == path then []
        else [e]
  {
    assert (entries + [e])[..|entries|] == entries;
  }

  /** Filtering keeps, in order, exactly the sources and entries at other paths: part by part and one by one. */
  lemma {:induction false} FilterInParts(a: seq<Source>, b: seq<Source>, path: string)
    ensures WithoutPath(a + b, path) == WithoutPath(a, path) + WithoutPath(b, path)
  {
    if b == [] {
      assert a + b == a;
    } else {
      var front, last := b[..|b| - 1], b[|b| - 1];
      FilterInParts(a, front, path);
      assert a + b == (a + front) + [last];
      WithoutPathSnoc(a + front, last, path);
      assert b == front + [last];
      WithoutPathSnoc(front, last, path);
      Reassociated(WithoutPath(a, path), WithoutPath(front, path), if last.entry.path == path then [] else [last]);
    }
  }

  lemma Reassociated<T>(a: seq<T>, b: seq<T>, c: seq<T>)
    ensures a + b + c == a + (b + c)
  {
  }

  lemma FilterOne(s: Source, path: string)
    ensures WithoutPath([s], path) == if s.entry.path == path then [] else [s]
  {
    assert [s][..0] == [];
  }

  lemma {:induction false} FilterEntriesInParts(a: seq<Entry>, b: seq<Entry>, path: string)
    ensures EntriesWithoutPath(a + b, path) == EntriesWithoutPath(a, path) + EntriesWithoutPath(b, path)
  {
    if b == [] {
      assert a + b == a;
    } else {
      var front, last := b[..|b| - 1], b[|b| - 1];
      FilterEntriesInParts(a, front, path);
      assert a + b == (a + front) + [last];
      EntriesSnoc(a + front, last, path);
      assert b == front + [last];
      EntriesSnoc(front, last, path);
      Reassociated(EntriesWithoutPath(a, path), EntriesWithoutPath(front, path),
                   if last.path == path then [] else [last]);
    }
  }

  lemma FilterOneEntry(e: Entry, path: string)
    ensures EntriesWithoutPath([e], path) == if e.path == path then [] else [e]
  {
    assert [e][..0] == [];
  }

  lemma NothingPersists(path: string)
    ensures Persistent(WithoutPath([], path)) == EntriesWithoutPath(Persistent([]), path) == []
  {
  }

  /** Filtering the extended list and filtering the list before extending it leave the same entries. */
  lemma PersistentWithoutPathStep(front: seq<Source>, s: Source, path: string)
    requires Persistent(WithoutPath(front, path)) == EntriesWithoutPath(Persistent(front), path)
    ensures Persistent(WithoutPath(front + [s], path)) == EntriesWithoutPath(Persistent(front + [s]), path)
  {
    hide Persistent, WithoutPath, EntriesWithoutPath;
    var kept, entries := WithoutPath(front, path), Persistent(front);
    WithoutPathSnoc(front, s, path);
    PersistentSnoc(front, s);
    if s.entry.path == path {
      assert WithoutPath(front + [s], path) == kept;
    } else {
      PersistentSnoc(kept, s);
    }
    if s.entry.kind.Push? {
      assert Persistent(front + [s]) == entries;
    } else {
      EntriesSnoc(entries, s.entry, path);
    }
    assert Persistent(kept) + [] == Persistent(kept);
  }

  lemma {:induction false} PersistentWithoutPath(sources: seq<Source>, path: string)
    ensures Persistent(WithoutPath(sources, path)) == EntriesWithoutPath(Persistent(sources), path)
  {
    hide Persistent, WithoutPath, EntriesWithoutPath;
    if sources == [] {
      NothingPersists(path);
    } else {
      var front, s := sources[..|sources| - 1], sources[|sources| - 1];
      assert sources == front + [s];
      PersistentWithoutPath(front, path);
      PersistentWithoutPathStep(front, s, path);
    }
  }

  lemma {:induction false} UnusedPathFiltersNothing(sources: seq<Source>, path: string)
    requires !PathUsed(sources, path)
    ensures WithoutPath(sources, path) == sources
  {
    if sources != [] {
      var front, s := sources[..|sources| - 1], sources[|sources| - 1];
      assert sources == front + [s];
      PathUsedSnoc(front, s);
      UnusedPathFiltersNothing(front, path);
    }
  }

  lemma {:induction false} PersistentOfLoaded(config: seq<Entry>)
    requires forall i :: 0 <= i < |config| ==> !config[i].kind.Push?
    ensures Persistent(Loaded(config)) == config
  {
    if config != [] {
      var front := config[..|config| - 1];
      PersistentOfLoaded(front);
      assert Loaded(config)[..|config| - 1] == Loaded(front);
      assert front + [config[|config| - 1]] == config;
    }
  }

  lemma {:induction false} PersistentNotPush(sources: seq<Source>)
    ensures forall i :: 0 <= i < |Persistent(sources)| ==> !Persistent(sources)[i].kind.Push?
  {
    if sources != [] {
      PersistentNotPush(sources[..|sources| - 1]);
    }
  }

  /** A persistent entry's path is the path of one of the sources, and no two entries share one. */
  lemma {:induction false} PersistentPaths(sources: seq<Source>)
    requires DistinctPaths(sources)
    ensures forall i :: 0 <= i < |Persistent(sources)| ==> PathUsed(sources, Persistent(sources)[i].path)
    ensures forall i, j :: 0 <= i < j < |Persistent(sources)|
              ==> Persistent(sources)[i].path != Persistent(sources)[j].path
  {
    if sources != [] {
      var front, s := sources[..|sources| - 1], sources[|sources| - 1];
      PersistentPaths(front);
      PathUsedSnoc(front, s);
      assert front + [s] == sources;
      assert !PathUsed(front, s.entry.path);
    }
  }

  // ----- Calls as functions of the manager's state -----

  /** One stream of the media server's listing; `title` is the display name made from its path. */
  datatype Item = Item(path: string, ready: bool, srcType: string, title: string)

  const PUSH_TYPES := {"rtmpConn", "rtmpsConn", "srtConn", "webRTCSession", "rtspSession", "rtspsSession"}

  /** `suppressed` holds push paths the user removed and whose device has been pushing ever since. */
  datatype State = State(sources: seq<Source>, config: seq<Entry>, suppressed: set<string>)

  datatype Op =
    | AddStream(name: string, slug: string, url: string, schemeOk: bool)
    | AddUsb(name: string, device: string, digits: string, readable: bool)
    | Register(index: nat, cameraId: string)
    | Remove(camera: string)
    | Poll(items: seq<Item>)
    | Restart

  function StreamEntry(sources: seq<Source>, name: string, slug: string, url: string): Entry {
    var base := "cam_" + slug;
    Entry(name, Stream, url, Candidate(base, FirstFree(sources, base, 0)))
  }

  function UsbEntry(name: string, device: string, digits: string): Entry {
    Entry(name, Usb, device, "cam_usb" + if digits == "" then "0" else digits)
  }

  function Adopted(s: State, e: Entry): State {
    s.(sources := s.sources + [Source(e, None)], config := EntriesWithoutPath(s.config, e.path) + [e])
  }

  /** The index of the first source bound to the camera. */
  function FirstOf(sources: seq<Source>, cameraId: string): (i: nat)
    ensures i <= |sources|
    ensures i < |sources| ==> sources[i].cameraId == Some(cameraId)
    ensures forall k :: 0 <= k < i ==> sources[k].cameraId != Some(cameraId)
  {
    if sources == [] then 0
    else if sources[0].cameraId == Some(cameraId) then 0
    else
      var i := FirstOf(sources[1..], cameraId);
      assert forall k :: 0 < k < i + 1 ==> sources[k] == sources[1..][k - 1];
      i + 1
  }

  function Removed(s: State, cameraId: string): State {
    var i := FirstOf(s.sources, cameraId);
    if i == |s.sources| then s else
      var e := s.sources[i].entry;
      if e.kind.Push?
      then s.(sources := WithoutPath(s.sources, e.path), suppressed := s.suppressed + {e.path})
      else s.(sources := WithoutPath(s.sources, e.path), config := EntriesWithoutPath(s.config, e.path))
  }

  /** Every source at the entry's path is gone. A pushed path is ignored from now on, any other is taken out of the
      configuration. */
  ghost predicate Dropped(before: State, e: Entry, after: State) {
    && after.sources == WithoutPath(before.sources, e.path)
    && after.config == (if e.kind == Push then before.config else EntriesWithoutPath(before.config, e.path))
    && after.suppressed == before.suppressed + if e.kind == Push then {e.path} else {}
  }

  function ReadyPaths(items: seq<Item>): set<string> {
    set i | i in items && i.ready :: i.path
  }

  predicate Qualifies(item: Item, known: seq<Source>, suppressed: set<string>) {
    item.path != "" && item.ready && !PathUsed(known, item.path) && item.path !in suppressed
        && item.srcType in PUSH_TYPES
  }

  predicate Wanted(items: seq<Item>, known: seq<Source>, suppressed: set<string>, path: string) {
    exists k :: 0 <= k < |items| && Qualifies(items[k], known, suppressed) && items[k].path == path
  }

  function Pushed(item: Item, rtsp: string): Source {
    Source(Entry(item.title, Push, rtsp + "/" + item.path, item.path), None)
  }

  /** The sources after the poll has gone through `items`, starting from `known`. */
  function Onboard(items: seq<Item>, known: seq<Source>, suppressed: set<string>, rtsp: string): seq<Source> {
    if items == [] then known else
      var item := items[|items| - 1];
      Onboard(items[..|items| - 1], known, suppressed, rtsp)
        + if Qualifies(item, known, suppressed) then [Pushed(item, rtsp)] else []
  }

  function Apply(s: State, op: Op, rtsp: string): State {
    match op
    case AddStream(name, slug, url, schemeOk) =>
      if !schemeOk || UrlUsed(s.sources, url) then s else Adopted(s, StreamEntry(s.sources, name, slug, url))
    case AddUsb(name, device, digits, readable) =>
      var e := UsbEntry(name, device, digits);
      if !readable || UrlUsed(s.sources, device) || PathUsed(s.sources, e.path) then s else Adopted(s, e)
    case Register(i, cameraId) =>
      if i < |s.sources| then s.(sources := s.sources[i := s.sources[i].(cameraId := Some(cameraId))]) else s
    case Remove(cameraId) => Removed(s, cameraId)
    case Poll(items) =>
      var kept := s.suppressed * ReadyPaths(items);
      s.(sources := Onboard(items, s.sources, kept, rtsp), suppressed := kept)
    case Restart => State(Loaded(s.config), s.config, {})
  }

  function Exec(s: State, ops: seq<Op>, rtsp: string): State {
    if ops == [] then s else Apply(Exec(s, ops[..|ops| - 1], rtsp), ops[|ops| - 1], rtsp)
  }

  /** The media server lists each path once. */
  ghost predicate WellFormed(op: Op) {
    op.Poll? ==> forall i, j :: 0 <= i < j < |op.items| ==> op.items[i].path != op.items[j].path
  }

  predicate PushAt(sources: seq<Source>, path: string) {
    exists i :: 0 <= i < |sources| && sources[i].entry.kind.Push? && sources[i].entry.path == path
  }

  /** No two sources share a path, the configuration holds exactly the sources that are not pushed, and nothing
      pushed runs at a suppressed path. */
  ghost predicate Sound(s: State) {
    && DistinctPaths(s.sources)
    && s.config == Persistent(s.sources)
    && (forall p :: p in s.suppressed ==> !PushAt(s.sources, p))
  }

  // ----- What every call keeps -----

  lemma DistinctSnoc(sources: seq<Source>, s: Source)
    requires DistinctPaths(sources) && !PathUsed(sources, s.entry.path)
    ensures DistinctPaths(sources + [s])
  {
  }

  lemma PushAtSnoc(sources: seq<Source>, s: Source)
    ensures forall p :: PushAt(sources + [s], p) <==> PushAt(sources, p) || (s.entry.kind.Push? && p == s.entry.path)
  {
    forall p ensures PushAt(sources + [s], p) <==> PushAt(sources, p) || (s.entry.kind.Push? && p == s.entry.path) {
      if PushAt(sources, p) {
        var i :| 0 <= i < |sources| && sources[i].entry.kind.Push? && sources[i].entry.path == p;
        assert (sources + [s])[i] == sources[i];
      }
      assert (sources + [s])[|sources|] == s;
    }
  }

  lemma AdoptKeepsSound(s: State, e: Entry)
    requires Sound(s) && !PathUsed(s.sources, e.path) && !e.kind.Push?
    ensures Sound(Adopted(s, e)) && Adopted(s, e).config == s.config + [e]
  {
    UnusedPathFiltersNothing(s.sources, e.path);
    PersistentWithoutPath(s.sources, e.path);
    PersistentSnoc(s.sources, Source(e, None));
    PushAtSnoc(s.sources, Source(e, None));
  }

  lemma RegisterKeepsSound(s: State, i: nat, cameraId: string)
    requires Sound(s) && i < |s.sources|
    ensures Sound(s.(sources := s.sources[i := s.sources[i].(cameraId := Some(cameraId))]))
  {
    var t := s.sources[i := s.sources[i].(cameraId := Some(cameraId))];
    SameEntriesSamePersistent(s.sources, t);
    assert forall k :: 0 <= k < |t| ==> t[k].entry == s.sources[k].entry;
  }

  lemma {:induction false} SameEntriesSamePersistent(a: seq<Source>, b: seq<Source>)
    requires |a| == |b| && forall k :: 0 <= k < |a| ==> a[k].entry == b[k].entry
    ensures Persistent(a) == Persistent(b)
  {
    if a != [] {
      SameEntriesSamePersistent(a[..|a| - 1], b[..|b| - 1]);
    }
  }

  lemma {:induction false} WithoutPathPushes(sources: seq<Source>, path: string)
    ensures forall p :: PushAt(WithoutPath(sources, path), p) <==> PushAt(sources, p) && p != path
  {
    if sources != [] {
      var front, s := sources[..|sources| - 1], sources[|sources| - 1];
      WithoutPathPushes(front, path);
      PushAtSnoc(front, s);
      PushAtSnoc(WithoutPath(front, path), s);
      assert front + [s] == sources;
      assert WithoutPath(front, path) + [] == WithoutPath(front, path);
    }
  }

  /** Filtering by path keeps the configuration equal to the sources that are not pushed: removing a pushed
      source changes no entry, because no persisted source has its path. */
  lemma RemoveKeepsSound(s: State, cameraId: string)
    requires Sound(s)
    ensures Sound(Removed(s, cameraId))
  {
    var i := FirstOf(s.sources, cameraId);
    if i < |s.sources| {
      var e := s.sources[i].entry;
      WithoutPathPaths(s.sources, e.path);
      WithoutPathPushes(s.sources, e.path);
      PersistentWithoutPath(s.sources, e.path);
      if e.kind.Push? {
        PushPathNotPersistent(s.sources, i);
      }
    }
  }

  lemma {:induction false} PushPathNotPersistent(sources: seq<Source>, i: nat)
    requires DistinctPaths(sources) && i < |sources| && sources[i].entry.kind.Push?
    ensures EntriesWithoutPath(Persistent(sources), sources[i].entry.path) == Persistent(sources)
  {
    hide Persistent, WithoutPath, EntriesWithoutPath;
    var front, s := sources[..|sources| - 1], sources[|sources| - 1];
    assert sources == front + [s];
    var path := sources[i].entry.path;
    PersistentSnoc(front, s);
    if i < |front| {
      PushPathNotPersistent(front, i);
      assert s.entry.path != path;
    } else {
      UnusedPathFiltersNothing(front, path);
      PersistentWithoutPath(front, path);
    }
    if s.entry.kind.Push? {
      assert Persistent(sources) == Persistent(front);
    } else {
      EntriesSnoc(Persistent(front), s.entry, path);
    }
  }

  /** The poll adds exactly one pushed source for each item that qualifies. */
  lemma {:induction false} OnboardExact(items: seq<Item>, known: seq<Source>, suppressed: set<string>, rtsp: string)
    requires DistinctPaths(known) && WellFormed(Poll(items))
    ensures var t := Onboard(items, known, suppressed, rtsp);
            && DistinctPaths(t) && Persistent(t) == Persistent(known)
            && (forall p :: PathUsed(t, p) <==> PathUsed(known, p) || Wanted(items, known, suppressed, p))
            && (forall p :: PushAt(t, p) <==> PushAt(known, p) || Wanted(items, known, suppressed, p))
  {
    if items != [] {
      var front, item := items[..|items| - 1], items[|items| - 1];
      var t := Onboard(front, known, suppressed, rtsp);
      OnboardExact(front, known, suppressed, rtsp);
      WantedSnoc(front, item, known, suppressed);
      assert front + [item] == items;
      if Qualifies(item, known, suppressed) {
        PathUsedSnoc(t, Pushed(item, rtsp));
        PushAtSnoc(t, Pushed(item, rtsp));
        PersistentSnoc(t, Pushed(item, rtsp));
        DistinctSnoc(t, Pushed(item, rtsp));
      } else {
        assert t + [] == t;
      }
    }
  }

  /** What a poll adds: after the sources that were there, one for a ready stream that a device pushes at a path that
      is neither in use nor suppressed, under the stream's title and at its address on the media server. */
  ghost predicate Discovered(items: seq<Item>, known: seq<Source>, suppressed: set<string>, rtsp: string, s: Source) {
    exists k :: 0 <= k < |items| && DiscoveredAs(items[k], known, suppressed, rtsp, s)
  }

  predicate DiscoveredAs(item: Item, known: seq<Source>, suppressed: set<string>, rtsp: string, s: Source) {
    && item.ready && item.path != "" && FromDevice(item)
    && item.path !in suppressed && (forall i :: 0 <= i < |known| ==> known[i].entry.path != item.path)
    && s.entry.name == item.title && s.entry.kind == Push && s.entry.url == rtsp + "/" + item.path
    && s.entry.path == item.path && s.cameraId == None
  }

  lemma {:induction false} OnboardInFull(items: seq<Item>, known: seq<Source>, suppressed: set<string>, rtsp: string)
    ensures var t := Onboard(items, known, suppressed, rtsp);
            && known <= t
            && forall i :: |known| <= i < |t| ==> Discovered(items, known, suppressed, rtsp, t[i])
  {
    hide DiscoveredAs, Qualifies, Pushed;
    if items != [] {
      var front, item := items[..|items| - 1], items[|items| - 1];
      OnboardInFull(front, known, suppressed, rtsp);
      var t0, t := Onboard(front, known, suppressed, rtsp), Onboard(items, known, suppressed, rtsp);
      forall i | |known| <= i < |t| ensures Discovered(items, known, suppressed, rtsp, t[i]) {
        if i < |t0| {
          var k :| 0 <= k < |front| && DiscoveredAs(front[k], known, suppressed, rtsp, t0[i]);
          assert DiscoveredAs(items[k], known, suppressed, rtsp, t[i]);
        } else {
          QualifyingIsDiscovered(item, known, suppressed, rtsp);
          assert DiscoveredAs(items[|items| - 1], known, suppressed, rtsp, t[i]);
        }
      }
    }
  }

  lemma QualifyingIsDiscovered(item: Item, known: seq<Source>, suppressed: set<string>, rtsp: string)
    requires Qualifies(item, known, suppressed)
    ensures DiscoveredAs(item, known, suppressed, rtsp, Pushed(item, rtsp))
  {
  }

  lemma WantedSnoc(front: seq<Item>, item: Item, known: seq<Source>, suppressed: set<string>)
    ensures forall p :: Wanted(front + [item], known, suppressed, p)
              <==> Wanted(front, known, suppressed, p) || (Qualifies(item, known, suppressed) && item.path == p)
    ensures (forall k :: 0 <= k < |front| ==> front[k].path != item.path)
        ==> !Wanted(front, known, suppressed, item.path)
  {
    hide Qualifies;
    forall p ensures Wanted(front + [item], known, suppressed, p)
        <==> Wanted(front, known, suppressed, p) || (Qualifies(item, known, suppressed) && item.path == p) {
      if Wanted(front, known, suppressed, p) {
        var k :| 0 <= k < |front| && Qualifies(front[k], known, suppressed) && front[k].path == p;
        assert (front + [item])[k] == front[k];
      }
      assert (front + [item])[|front|] == item;
    }
  }

  lemma PollKeepsSound(s: State, items: seq<Item>, rtsp: string)
    requires Sound(s) && WellFormed(Poll(items))
    ensures Sound(Apply(s, Poll(items), rtsp))
  {
    OnboardExact(items, s.sources, s.suppressed * ReadyPaths(items), rtsp);
  }

  lemma RestartKeepsSound(s: State)
    requires Sound(s)
    ensures Sound(State(Loaded(s.config), s.config, {}))
  {
    PersistentPaths(s.sources);
    PersistentNotPush(s.sources);
    PersistentOfLoaded(s.config);
  }

  lemma ApplyKeepsSound(s: State, op: Op, rtsp: string)
    requires Sound(s) && WellFormed(op)
    ensures Sound(Apply(s, op, rtsp))
  {
    match op
    case AddStream(name, slug, url, schemeOk) =>
      if schemeOk && !UrlUsed(s.sources, url) {
        AdoptKeepsSound(s, StreamEntry(s.sources, name, slug, url));
      }
    case AddUsb(name, device, digits, readable) =>
      if readable && !UrlUsed(s.sources, device) && !PathUsed(s.sources, UsbEntry(name, device, digits).path) {
        AdoptKeepsSound(s, UsbEntry(name, device, digits));
      }
    case Register(i, cameraId) =>
      if i < |s.sources| {
        RegisterKeepsSound(s, i, cameraId);
      }
    case Remove(cameraId) => RemoveKeepsSound(s, cameraId);
    case Poll(items) => PollKeepsSound(s, items, rtsp);
    case Restart => RestartKeepsSound(s);
  }

  // ----- Whole runs -----

  /** Every sequential run of adds, polls, registrations, removals and restarts keeps all stream paths distinct
      and the configuration equal to the sources that are not pushed. */
  lemma {:induction false} RunKeepsSound(s: State, ops: seq<Op>, rtsp: string)
    requires Sound(s) && forall i :: 0 <= i < |ops| ==> WellFormed(ops[i])
    ensures Sound(Exec(s, ops, rtsp))
  {
    if ops != [] {
      RunKeepsSound(s, ops[..|ops| - 1], rtsp);
      ApplyKeepsSound(Exec(s, ops[..|ops| - 1], rtsp), ops[|ops| - 1], rtsp);
    }
  }

  /** A restart brings back exactly the sources that were not pushed, in order, and loses only the rest. */
  lemma RestartRestores(s: State, ops: seq<Op>, rtsp: string)
    requires Sound(s) && forall i :: 0 <= i < |ops| ==> WellFormed(ops[i])
    ensures var before, after := Exec(s, ops, rtsp), Exec(s, ops + [Restart], rtsp);
            && after.config == before.config && Persistent(after.sources) == Persistent(before.sources)
            && (forall p :: PathUsed(after.sources, p) ==> PathUsed(before.sources, p) && !PushAt(after.sources, p))
  {
    hide Sound, Persistent;
    RunKeepsSound(s, ops, rtsp);
    assert (ops + [Restart])[..|ops|] == ops;
    var before, after := Exec(s, ops, rtsp), Exec(s, ops + [Restart], rtsp);
    assert after == State(Loaded(before.config), before.config, {});
    ReloadedPaths(before);
  }

  lemma ReloadedPaths(s: State)
    requires Sound(s)
    ensures Persistent(Loaded(s.config)) == Persistent(s.sources)
    ensures forall p :: PathUsed(Loaded(s.config), p) ==> PathUsed(s.sources, p) && !PushAt(Loaded(s.config), p)
  {
    PersistentNotPush(s.sources);
    PersistentPaths(s.sources);
    PersistentOfLoaded(s.config);
  }

  ghost predicate SeesReady(op: Op, path: string) {
    op.Poll? ==> path in ReadyPaths(op.items)
  }

  /** As long as every poll lists the path as ready and the service is not restarted, a suppressed path stays
      suppressed, and no poll brings a pushed source back at it. */
  lemma {:induction false} StaysRemoved(s: State, ops: seq<Op>, rtsp: string, path: string)
    requires Sound(s) && path in s.suppressed
    requires forall i :: 0 <= i < |ops| ==> WellFormed(ops[i]) && !ops[i].Restart? && SeesReady(ops[i], path)
    ensures path in Exec(s, ops, rtsp).suppressed && !PushAt(Exec(s, ops, rtsp).sources, path)
  {
    RunKeepsSound(s, ops, rtsp);
    if ops != [] {
      StaysRemoved(s, ops[..|ops| - 1], rtsp, path);
      assert SeesReady(ops[|ops| - 1], path);
    }
  }

  /** The listing shows the path as a ready stream pushed by a device. */
  predicate Inbound(items: seq<Item>, path: string) {
    exists k :: 0 <= k < |items| && items[k].path == path != "" && items[k].ready && FromDevice(items[k])
  }

  /** A device publishes the stream; the server's own relays and pulls have other types. */
  predicate FromDevice(item: Item) {
    item.srcType in ["rtmpConn", "rtmpsConn", "srtConn", "webRTCSession", "rtspSession", "rtspsSession"]
  }

  lemma WantedIff(items: seq<Item>, known: seq<Source>, suppressed: set<string>, path: string)
    ensures Wanted(items, known, suppressed, path)
            <==> Inbound(items, path) && !PathUsed(known, path) && path !in suppressed
    ensures Inbound(items, path) ==> path in ReadyPaths(items)
  {
    hide PathUsed;
    if Inbound(items, path) {
      var k :| 0 <= k < |items| && items[k].path == path != "" && items[k].ready && FromDevice(items[k]);
      assert items[k] in items && items[k].path in ReadyPaths(items);
      assert Qualifies(items[k], known, suppressed) <==> !PathUsed(known, path) && path !in suppressed;
    }
  }

  /** After a poll there is a pushed source at the path if and only if there was one, or the listing shows the
      path inbound, no source has it and it is not suppressed. */
  lemma PollBringsIff(s: State, items: seq<Item>, rtsp: string, path: string)
    requires Sound(s) && WellFormed(Poll(items))
    ensures PushAt(Apply(s, Poll(items), rtsp).sources, path)
       <==> PushAt(s.sources, path) || (Inbound(items, path) && !PathUsed(s.sources, path) && path !in s.suppressed)
  {
    hide PushAt, PathUsed, Inbound, Wanted, DistinctPaths, Onboard, Persistent, ReadyPaths;
    OnboardExact(items, s.sources, s.suppressed * ReadyPaths(items), rtsp);
    WantedIff(items, s.sources, s.suppressed * ReadyPaths(items), path);
  }

  /** The call removes a camera fed by a pushed stream at the path. */
  predicate Suppresses(s: State, op: Op, path: string) {
    && op.Remove?
    && var i := FirstOf(s.sources, op.camera);
       i < |s.sources| && s.sources[i].entry.kind.Push? && s.sources[i].entry.path == path
  }

  /** The call does not forget a suppressed path: it is no restart, and no poll that misses the path. */
  ghost predicate Remembers(op: Op, path: string) {
    !op.Restart? && SeesReady(op, path)
  }

  lemma SuppressedStep(s: State, op: Op, rtsp: string, path: string)
    ensures path in Apply(s, op, rtsp).suppressed
            <==> Suppresses(s, op, path) || (path in s.suppressed && Remembers(op, path))
  {
    hide ReadyPaths, Onboard, WithoutPath, EntriesWithoutPath;
  }

  /** The path is suppressed at the start of the run (j is 0) or by its j-th call. */
  predicate SuppressedFrom(s: State, ops: seq<Op>, rtsp: string, j: nat, path: string)
    requires j <= |ops|
  {
    if j == 0 then path in s.suppressed else Suppresses(Exec(s, ops[..j - 1], rtsp), ops[j - 1], path)
  }

  /** Suppressed at some point of the run and remembered ever since. */
  ghost predicate StillRemoved(s: State, ops: seq<Op>, rtsp: string, path: string) {
    exists j :: 0 <= j <= |ops| && SuppressedFrom(s, ops, rtsp, j, path) && forall k :: j <= k < |ops|
                                                                              ==> Remembers(ops[k], path)
  }

  lemma StillRemovedStep(s: State, ops: seq<Op>, rtsp: string, path: string)
    requires ops != []
    ensures var front := ops[..|ops| - 1];
            StillRemoved(s, ops, rtsp, path)
            <==> || SuppressedFrom(s, ops, rtsp, |ops|, path)
                 || (StillRemoved(s, front, rtsp, path) && Remembers(ops[|ops| - 1], path))
  {
    hide Suppresses, Remembers, Exec;
    var front := ops[..|ops| - 1];
    forall j | 0 <= j <= |front|
      ensures SuppressedFrom(s, front, rtsp, j, path) == SuppressedFrom(s, ops, rtsp, j, path)
    {
      if j > 0 {
        assert front[..j - 1] == ops[..j - 1];
      }
    }
    if StillRemoved(s, ops, rtsp, path) {
      var j :| 0 <= j <= |ops| && SuppressedFrom(s, ops, rtsp, j, path) && forall k :: j <= k < |ops|
                                                                             ==> Remembers(ops[k], path);
      if j <= |front| {
        assert SuppressedFrom(s, front, rtsp, j, path);
      }
    }
    if StillRemoved(s, front, rtsp, path) && Remembers(ops[|ops| - 1], path) {
      var j :| 0 <= j <= |front| && SuppressedFrom(s, front, rtsp, j, path) && forall k :: j <= k < |front|
                                                                                 ==> Remembers(front[k], path);
      assert SuppressedFrom(s, ops, rtsp, j, path);
    }
  }

  /** Over every run the suppressed paths are exactly those removed and remembered ever since. */
  lemma {:induction false} SuppressedExactly(s: State, ops: seq<Op>, rtsp: string, path: string)
    ensures path in Exec(s, ops, rtsp).suppressed <==> StillRemoved(s, ops, rtsp, path)
  {
    hide Suppresses, Remembers, StillRemoved, Apply;
    if ops != [] {
      var front := ops[..|ops| - 1];
      SuppressedExactly(s, front, rtsp, path);
      SuppressedStep(Exec(s, front, rtsp), ops[|ops| - 1], rtsp, path);
      StillRemovedStep(s, ops, rtsp, path);
    } else {
      assert StillRemoved(s, ops, rtsp, path) <==> SuppressedFrom(s, ops, rtsp, 0, path) by {
        NothingForgotten(s, rtsp, path);
      }
    }
  }

  lemma NothingForgotten(s: State, rtsp: string, path: string)
    ensures StillRemoved(s, [], rtsp, path) <==> path in s.suppressed
  {
    if path in s.suppressed {
      assert SuppressedFrom(s, [], rtsp, 0, path);
    }
  }

  /** When a removed pushed camera comes back. After its removal and any further calls, a poll leaves a pushed
      source at its path if and only if there was one already, or the listing shows the path inbound and free and
      the removal has been forgotten by a restart or by a poll that missed the path. */
  lemma RemovedUntilMissed(s: State, camera: string, ops: seq<Op>, items: seq<Item>, rtsp: string, path: string)
    requires Sound(s) && Suppresses(s, Remove(camera), path) && WellFormed(Poll(items))
    requires forall i :: 0 <= i < |ops| ==> WellFormed(ops[i])
    ensures var removed := Apply(s, Remove(camera), rtsp);
            var t := Exec(removed, ops, rtsp);
            && path in removed.suppressed && !PushAt(removed.sources, path)
            && (PushAt(Apply(t, Poll(items), rtsp).sources, path)
                <==> || PushAt(t.sources, path)
                     || (Inbound(items, path) && !PathUsed(t.sources, path) && !StillRemoved(removed, ops, rtsp, path)))
  {
    hide Apply, Exec, Sound, StillRemoved, PushAt, PathUsed, Inbound, Suppresses;
    RemovalSuppresses(s, camera, rtsp, path);
    PollAfterRun(Apply(s, Remove(camera), rtsp), ops, items, rtsp, path);
  }

  lemma RemovalSuppresses(s: State, camera: string, rtsp: string, path: string)
    requires Sound(s) && Suppresses(s, Remove(camera), path)
    ensures var removed := Apply(s, Remove(camera), rtsp);
            Sound(removed) && path in removed.suppressed && !PushAt(removed.sources, path)
  {
    hide PushAt;
    ApplyKeepsSound(s, Remove(camera), rtsp);
  }

  lemma PollAfterRun(u: State, ops: seq<Op>, items: seq<Item>, rtsp: string, path: string)
    requires Sound(u) && WellFormed(Poll(items)) && forall i :: 0 <= i < |ops| ==> WellFormed(ops[i])
    ensures var t := Exec(u, ops, rtsp);
            PushAt(Apply(t, Poll(items), rtsp).sources, path)
            <==> || PushAt(t.sources, path)
                 || (Inbound(items, path) && !PathUsed(t.sources, path) && !StillRemoved(u, ops, rtsp, path))
  {
    hide Apply, Exec, Sound, StillRemoved, PushAt, PathUsed, Inbound;
    RunKeepsSound(u, ops, rtsp);
    SuppressedExactly(u, ops, rtsp, path);
    PollBringsIff(Exec(u, ops, rtsp), items, rtsp, path);
  }

  /** No call of the run removes a pushed source at the path. */
  ghost predicate NotRemoved(s: State, ops: seq<Op>, rtsp: string, path: string) {
    forall i :: 0 <= i < |ops| ==> !Suppresses(Exec(s, ops[..i], rtsp), ops[i], path)
  }

  lemma NotRemovedAgain(u: State, ops: seq<Op>, rtsp: string, path: string)
    requires path !in u.suppressed && NotRemoved(u, ops, rtsp, path)
    ensures path !in Exec(u, ops, rtsp).suppressed
  {
    hide Suppresses, Remembers, Exec;
    SuppressedExactly(u, ops, rtsp, path);
  }

  lemma ForgottenReturns(u: State, ops: seq<Op>, items: seq<Item>, rtsp: string, path: string)
    requires Sound(u) && path !in u.suppressed && NotRemoved(u, ops, rtsp, path) && WellFormed(Poll(items))
    requires forall i :: 0 <= i < |ops| ==> WellFormed(ops[i])
    ensures var v := Exec(u, ops, rtsp);
            PushAt(Apply(v, Poll(items), rtsp).sources, path)
            <==> PushAt(v.sources, path) || (Inbound(items, path) && !PathUsed(v.sources, path))
  {
    hide Apply, Exec, Sound, PushAt, PathUsed, Inbound, NotRemoved;
    RunKeepsSound(u, ops, rtsp);
    NotRemovedAgain(u, ops, rtsp, path);
    PollBringsIff(Exec(u, ops, rtsp), items, rtsp, path);
  }

  /** A poll that misses the path forgets its removal: from then on, as long as it is not removed again, a poll
      brings it back if and only if the path is inbound and free. */
  lemma MissedPollForgets(t: State, missed: seq<Item>, ops: seq<Op>, items: seq<Item>, rtsp: string, path: string)
    requires Sound(t) && WellFormed(Poll(missed)) && WellFormed(Poll(items)) && path !in ReadyPaths(missed)
    requires NotRemoved(Apply(t, Poll(missed), rtsp), ops, rtsp, path) && forall i :: 0 <= i < |ops|
                                                                            ==> WellFormed(ops[i])
    ensures var v := Exec(Apply(t, Poll(missed), rtsp), ops, rtsp);
            PushAt(Apply(v, Poll(items), rtsp).sources, path)
            <==> PushAt(v.sources, path) || (Inbound(items, path) && !PathUsed(v.sources, path))
  {
    hide Exec, Sound, PushAt, PathUsed, Inbound, NotRemoved, Onboard, ReadyPaths;
    ApplyKeepsSound(t, Poll(missed), rtsp);
    ForgottenReturns(Apply(t, Poll(missed), rtsp), ops, items, rtsp, path);
  }

  /** Removals are kept in memory only: after a restart a poll brings a removed pushed camera back if and only if
      its path is inbound and not that of a configured source, even if no poll ever missed it. */
  lemma RestartForgets(s: State, items: seq<Item>, rtsp: string, path: string)
    requires Sound(s) && WellFormed(Poll(items))
    ensures PushAt(Apply(Apply(s, Restart, rtsp), Poll(items), rtsp).sources, path)
            <==> Inbound(items, path) && !PathUsed(Loaded(s.config), path)
  {
    RestartKeepsSound(s);
    PersistentNotPush(s.sources);
    assert !PushAt(Loaded(s.config), path);
    PollBringsIff(Apply(s, Restart, rtsp), items, rtsp, path);
  }

  /** A stream whose probe failed is still there: adding its address again, under any name, changes nothing. */
  lemma SecondAddIsRejected(s: State, name: string, slug: string, url: string, again: string, slugAgain: string,
                            rtsp: string)
    ensures var t := Apply(s, AddStream(name, slug, url, true), rtsp);
            UrlUsed(t.sources, url) && Apply(t, AddStream(again, slugAgain, url, true), rtsp) == t
  {
    var t := Apply(s, AddStream(name, slug, url, true), rtsp);
    if !UrlUsed(s.sources, url) {
      assert t.sources[|s.sources|].entry.url == url;
    }
  }

  // ----- The manager itself -----

  datatype AddResult = Added | Unreachable | Rejected

  class Manager {
    /** The base address of the media server. */
    const rtsp: string
    var sources: seq<Source>
    /** The `sources` list of the configuration file. */
    var config: seq<Entry>
    var suppressed: set<string>

    ghost function Now(): State
      reads this
    {
      State(sources, config, suppressed)
    }

    /** `load` on a configuration with distinct paths. */
    constructor (config: seq<Entry>, rtsp: string)
      requires forall i :: 0 <= i < |config| ==> !config[i].kind.Push?
      requires forall i, j :: 0 <= i < j < |config| ==> config[i].path != config[j].path
      ensures Now() == State(Loaded(config), config, {}) && Sound(Now()) && this.rtsp == rtsp
    {
      PersistentOfLoaded(config);
      this.rtsp := rtsp;
      this.config := config;
      sources := Loaded(config);
      suppressed := {};
    }

    /** `_persist_source`: append, replacing any entry with the same path. */
    method PersistSource(e: Entry)
      modifies this`config
      ensures config == EntriesWithoutPath(old(config), e.path) + [e]
    {
      var kept := FilterEntries(e.path);
      config := kept + [e];
    }

    method RemoveSourceFromConfig(path: string)
      modifies this`config
      ensures config == EntriesWithoutPath(old(config), path)
    {
      config := FilterEntries(path);
    }

    method FilterEntries(path: string) returns (kept: seq<Entry>)
      ensures kept == EntriesWithoutPath(config, path)
    {
      kept := [];
      for i := 0 to |config|
        invariant kept == EntriesWithoutPath(config[..i], path)
      {
        assert config[..i + 1][..i] == config[..i];
        if config[i].path != path {
          kept := kept + [config[i]];
        }
      }
      assert config[..|config|] == config;
    }

    /** The tail of add_usb_source and add_stream_source: the source is kept even when the probe then fails. */
    method Adopt(e: Entry, reachable: bool) returns (r: AddResult)
      modifies this
      ensures Now() == Adopted(old(Now()), e)
      ensures r == if reachable then Added else Unreachable
    {
      PersistSource(e);
      sources := sources + [Source(e, None)];
      return if reachable then Added else Unreachable;
    }

    /** `slug` is what the name is reduced to. */
    method AddStreamSource(name: string, slug: string, url: string, schemeOk: bool, reachable: bool)
      returns (r: AddResult)
      modifies this
      ensures Now() == Apply(old(Now()), AddStream(name, slug, url, schemeOk), rtsp)
      ensures r == Rejected <==> !schemeOk || exists i :: 0 <= i < |old(sources)| && old(sources)[i].entry.url == url
      ensures r == Rejected ==> Now() == old(Now())
      ensures r != Rejected ==>
                && r == (if reachable then Added else Unreachable)
                && |sources| == |old(sources)| + 1 && old(sources) <= sources && suppressed == old(suppressed)
                && var s := sources[|old(sources)|];
                   && s.cameraId == None && s.entry.name == name && s.entry.kind == Stream && s.entry.url == url
                   && FirstFreePath(old(sources), "cam_" + slug, s.entry.path)
                   && config == EntriesWithoutPath(old(config), s.entry.path) + [s.entry]
    {
      if !schemeOk || UrlUsed(sources, url) {
        return Rejected;
      }
      var path := FreshPath(sources, "cam_" + slug);
      r := Adopt(Entry(name, Stream, url, path), reachable);
    }

    /** `digits` are the trailing digits of the device node, if any. */
    method AddUsbSource(name: string, device: string, digits: string, readable: bool, reachable: bool)
      returns (r: AddResult)
      modifies this
      ensures Now() == Apply(old(Now()), AddUsb(name, device, digits, readable), rtsp)
      ensures var path := "cam_usb" + if digits == "" then "0" else digits;
              && (r == Rejected <==>
                    !readable || exists i :: && 0 <= i < |old(sources)|
                                             && (old(sources)[i].entry.url == device
                                                 || old(sources)[i].entry.path == path))
              && (r == Rejected ==> Now() == old(Now()))
              && (r != Rejected ==>
                    && r == (if reachable then Added else Unreachable)
                    && sources == old(sources) + [Source(Entry(name, Usb, device, path), None)]
                    && config == EntriesWithoutPath(old(config), path) + [Entry(name, Usb, device, path)]
                    && suppressed == old(suppressed))
    {
      var e := UsbEntry(name, device, digits);
      if !readable || UrlUsed(sources, device) || PathUsed(sources, e.path) {
        return Rejected;
      }
      r := Adopt(e, reachable);
    }

    /** `_register` found or made the camera of the i-th source. */
    method RegisterCamera(i: nat, cameraId: string)
      requires i < |sources|
      modifies this
      ensures Now() == Apply(old(Now()), Register(i, cameraId), rtsp)
      ensures sources == old(sources)[i := Source(old(sources)[i].entry, Some(cameraId))]
    {
      sources := sources[i := sources[i].(cameraId := Some(cameraId))];
    }

    method RemoveSource(cameraId: string) returns (found: bool)
      modifies this
      ensures Now() == Apply(old(Now()), Remove(cameraId), rtsp)
      ensures found <==> exists k :: 0 <= k < |old(sources)| && old(sources)[k].cameraId == Some(cameraId)
      ensures !found ==> Now() == old(Now())
      ensures found ==> exists k :: 0 <= k < |old(sources)| && old(sources)[k].cameraId == Some(cameraId)
                                    && (forall j :: 0 <= j < k ==> old(sources)[j].cameraId != Some(cameraId))
                                    && Dropped(old(Now()), old(sources)[k].entry, Now())
    {
      var i := FirstOf(sources, cameraId);
      if i == |sources| {
        return false;
      }
      var e := sources[i].entry;
      var kept: seq<Source> := [];
      for k := 0 to |sources|
        invariant kept == WithoutPath(sources[..k], e.path) && Now() == old(Now())
      {
        assert sources[..k + 1][..k] == sources[..k];
        if sources[k].entry.path != e.path {
          kept := kept + [sources[k]];
        }
      }
      assert sources[..|sources|] == sources;
      sources := kept;
      if e.kind.Push? {
        suppressed := suppressed + {e.path};
      } else {
        RemoveSourceFromConfig(e.path);
      }
      return true;
    }

    /** One poll of the push watcher over the streams the media server lists. */
    method PollPushes(items: seq<Item>)
      modifies this
      ensures Now() == Apply(old(Now()), Poll(items), rtsp)
      ensures forall p :: p in suppressed
                <==> p in old(suppressed) && exists k :: 0 <= k < |items| && items[k].ready && items[k].path == p
      ensures old(sources) <= sources && config == old(config)
      ensures forall i :: |old(sources)| <= i < |sources|
                ==> Discovered(items, old(sources), suppressed, rtsp, sources[i])
    {
      OnboardInFull(items, sources, suppressed * ReadyPaths(items), rtsp);
      suppressed := suppressed * ReadyPaths(items);
      var known := set i | 0 <= i < |sources| :: sources[i].entry.path;
      ghost var before := sources;
      assert forall p :: p in known <==> PathUsed(before, p);
      for i := 0 to |items|
        invariant config == old(config) && suppressed == old(suppressed) * ReadyPaths(items)
        invariant sources == Onboard(items[..i], before, suppressed, rtsp)
      {
        assert items[..i + 1][..i] == items[..i];
        var item := items[i];
        if item.path == "" || !item.ready {
          continue;
        }
        if item.path in known || item.path in suppressed {
          continue;
        }
        if item.srcType !in PUSH_TYPES {
          continue;
        }
        sources := sources + [Pushed(item, rtsp)];
      }
      assert items[..|items|] == items;
    }
  }
}
