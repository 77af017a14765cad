/**
 * Installed applications: the records `scan_shortcuts` takes from the Start
 * menu folders, the sort and de-duplication of `enumerate_installed_apps`,
 * and the new-window detection `launch_app` polls with. The directory walk,
 * the environment and the process spawn are outside the model; their
 * results come in as parameters.
 */
module Apps {
  import opened Common
  import opened Strings
  import opened Win32
  import opened Classifier
  import opened Enumeration

  /** An application offered for launching (`AppInfo`). */
  datatype AppInfo = AppInfo(name: string, path: string)

  /** An entry the directory walk yields: its full path and its last component. */
  datatype DirEntry = DirEntry(path: string, fileName: string)

  // ---------------------------------------------------------------------
  // File names.
  // ---------------------------------------------------------------------

  /** The index of the last `.` in `s`, if there is one. */
  function LastDot(s: string): (r: Option<nat>)
    ensures r.Some? ==> r.value < |s| && s[r.value] == '.'
    ensures r.Some? ==> forall j :: r.value < j < |s| ==> s[j] != '.'
    ensures r.None? ==> forall j :: 0 <= j < |s| ==> s[j] != '.'
    decreases |s|
  {
    if |s| == 0 then None
    else if s[|s| - 1] == '.' then Some(|s| - 1)
    else LastDot(s[..|s| - 1])
  }

  /**
   * `Path::file_stem` and `Path::extension` of a file name: split at the last
   * dot, except that a name whose only dot is its first character has no
   * extension.
   */
  function SplitExtension(fileName: string): (r: (string, Option<string>))
    ensures r.1.Some? ==> r.0 + "." + r.1.value == fileName && r.0 != []
    ensures r.1.Some? ==> forall j :: 0 <= j < |r.1.value| ==> r.1.value[j] != '.'
    ensures r.1.None? ==> r.0 == fileName && forall j :: 0 < j < |fileName| ==> fileName[j] != '.'
  {
    match LastDot(fileName)
    case None => (fileName, None)
    case Some(k) =>
      if k == 0 then (fileName, None)
      else
        assert fileName[..k] + "." + fileName[k + 1..] == fileName;
        (fileName[..k], Some(fileName[k + 1..]))
  }

  /** Splitting a stem joined to a dot-free extension gives them back. */
  lemma SplitJoin(stem: string, ext: string)
    requires stem != [] && forall j :: 0 <= j < |ext| ==> ext[j] != '.'
    ensures SplitExtension(stem + "." + ext) == (stem, Some(ext))
  {
    var name := stem + "." + ext;
    var r := LastDot(name);
    assert name[|stem|] == '.';
    assert forall j :: |stem| < j < |name| ==> name[j] == ext[j - |stem| - 1];
    assert r == Some(|stem|);
    assert name[..|stem|] == stem && name[|stem| + 1..] == ext;
  }

  // ---------------------------------------------------------------------
  // Scanning.
  // ---------------------------------------------------------------------

  /** Names containing either marker are uninstallers and are skipped. */
  const UninstallMarkers: seq<string> := ["Uninstall", "\U{5378}\U{8F7D}"]

  /** The record `scan_shortcuts` pushes for one entry, if any. */
  function Candidate(e: DirEntry): (r: Option<AppInfo>)
    ensures r.Some? ==> r.value.path == e.path && r.value.name != []
    ensures r.Some? ==> e.fileName == r.value.name + ".lnk" || e.fileName == r.value.name + ".exe"
    ensures r.Some? ==> !ContainsAny(r.value.name, UninstallMarkers)
  {
    var (stem, ext) := SplitExtension(e.fileName);
    if ext.Some? && (ext.value == "lnk" || ext.value == "exe") then
      if !ContainsAny(stem, UninstallMarkers) then Some(AppInfo(stem, e.path))
      else None
    else None
  }

  /**
   * Every shortcut or executable whose name is not empty and carries no
   * uninstall marker is taken, under its stem and with its path.
   */
  lemma CandidateAccepts(path: string, name: string, ext: string)
    requires ext == "lnk" || ext == "exe"
    requires name != [] && !ContainsAny(name, UninstallMarkers)
    ensures Candidate(DirEntry(path, name + "." + ext)) == Some(AppInfo(name, path))
  {
    SplitJoin(name, ext);
  }

  /** A name carrying an uninstall marker is never offered, whatever its extension. */
  lemma UninstallerSkipped(path: string, name: string, ext: string)
    requires name != [] && forall j :: 0 <= j < |ext| ==> ext[j] != '.'
    requires ContainsAny(name, UninstallMarkers)
    ensures Candidate(DirEntry(path, name + "." + ext)).None?
  {
    SplitJoin(name, ext);
  }

  /** `scan_shortcuts` over the entries of one folder, in walk order. */
  function Scan(entries: seq<DirEntry>): (r: seq<AppInfo>)
    ensures |r| <= |entries|
    ensures forall a :: a in r ==> exists e :: e in entries && Candidate(e) == Some(a)
    decreases |entries|
  {
    if |entries| == 0 then []
    else
      var last := entries[|entries| - 1];
      var r := Scan(entries[..|entries| - 1]);
      assert forall e :: e in entries[..|entries| - 1] ==> e in entries;
      match Candidate(last)
      case Some(a) => r + [a]
      case None => r
  }

  lemma ScanSnoc(a: seq<DirEntry>, e: DirEntry)
    ensures Scan(a + [e]) == Scan(a) + (if Candidate(e).Some? then [Candidate(e).value] else [])
  {
    assert (a + [e])[..|a|] == a;
  }

  /** Scanning one folder after another is scanning their concatenation. */
  lemma {:induction false} ScanAppend(a: seq<DirEntry>, b: seq<DirEntry>)
    ensures Scan(a + b) == Scan(a) + Scan(b)
    decreases |b|
  {
    if |b| > 0 {
      var b' := b[..|b| - 1];
      var e := b[|b| - 1];
      assert b == b' + [e];
      assert a + b == (a + b') + [e];
      ScanAppend(a, b');
      ScanSnoc(a + b', e);
      ScanSnoc(b', e);
    } else {
      assert a + b == a;
    }
  }

  /** Every entry the scan takes is reported, in walk order. */
  lemma {:induction false} ScanComplete(entries: seq<DirEntry>, i: nat)
    requires i < |entries| && Candidate(entries[i]).Some?
    ensures Candidate(entries[i]).value in Scan(entries)
  {
    var a := entries[..i + 1];
    var b := entries[i + 1..];
    assert entries == a + b;
    ScanAppend(a, b);
    assert a[..|a| - 1] == entries[..i];
  }

  // ---------------------------------------------------------------------
  // Sorting and de-duplicating by a key. The lemmas hold for any key
  // function; the command uses the lower-cased name.
  // ---------------------------------------------------------------------

  /** No entry's key is below an earlier entry's key. */
  ghost predicate SortedBy<T>(s: seq<T>, key: T -> string) {
    forall i, j :: 0 <= i < j < |s| ==> !Less(key(s[j]), key(s[i]))
  }

  /** The entries whose key is `k`, in order. */
  function WithKey<T>(s: seq<T>, key: T -> string, k: string): seq<T>
    decreases |s|
  {
    if |s| == 0 then []
    else
      var r := WithKey(s[..|s| - 1], key, k);
      if key(s[|s| - 1]) == k then r + [s[|s| - 1]] else r
  }

  lemma WithKeySnoc<T>(s: seq<T>, x: T, key: T -> string, k: string)
    ensures WithKey(s + [x], key, k) == WithKey(s, key, k) + (if key(x) == k then [x] else [])
  {
    assert (s + [x])[..|s|] == s;
  }

  lemma {:induction false} WithKeyAppend<T>(a: seq<T>, b: seq<T>, key: T -> string, k: string)
    ensures WithKey(a + b, key, k) == WithKey(a, key, k) + WithKey(b, key, k)
    decreases |b|
  {
    if |b| > 0 {
      var b' := b[..|b| - 1];
      var x := b[|b| - 1];
      assert b == b' + [x];
      assert a + b == (a + b') + [x];
      WithKeyAppend(a, b', key, k);
      WithKeySnoc(a + b', x, key, k);
      WithKeySnoc(b', x, key, k);
    } else {
      assert a + b == a;
    }
  }

  /** `x` followed by `t`, split by key. */
  lemma WithKeyCons<T>(x: T, t: seq<T>, key: T -> string, k: string)
    ensures WithKey([x] + t, key, k) == (if key(x) == k then [x] else []) + WithKey(t, key, k)
  {
    WithKeyAppend([x], t, key, k);
    WithKeySnoc([], x, key, k);
    assert [] + [x] == [x];
  }

  /** Without an entry of key `k`, `WithKey` is empty. */
  lemma {:induction false} WithKeyNone<T>(s: seq<T>, key: T -> string, k: string)
    requires forall i :: 0 <= i < |s| ==> key(s[i]) != k
    ensures WithKey(s, key, k) == []
    decreases |s|
  {
    if |s| > 0 {
      WithKeyNone(s[..|s| - 1], key, k);
    }
  }

  lemma SortedTail<T>(t: seq<T>, key: T -> string)
    requires |t| > 0 && SortedBy(t, key)
    ensures SortedBy(t[1..], key)
  {
    forall i, j | 0 <= i < j < |t[1..]|
      ensures !Less(key(t[1..][j]), key(t[1..][i]))
    {
      assert t[1..][j] == t[j + 1] && t[1..][i] == t[i + 1];
    }
  }

  lemma SortedPrefix<T>(s: seq<T>, n: nat, key: T -> string)
    requires n <= |s| && SortedBy(s, key)
    ensures SortedBy(s[..n], key)
  {
    forall i, j | 0 <= i < j < n
      ensures !Less(key(s[..n][j]), key(s[..n][i]))
    {
      assert s[..n][j] == s[j] && s[..n][i] == s[i];
    }
  }

  /** In a sorted sequence whose first key is above `x`'s, every key is above it. */
  lemma AboveAll<T>(x: T, t: seq<T>, key: T -> string)
    requires |t| > 0 && SortedBy(t, key) && Less(key(x), key(t[0]))
    ensures forall i :: 0 <= i < |t| ==> !Less(key(t[i]), key(x)) && key(t[i]) != key(x)
  {
    forall i | 0 <= i < |t|
      ensures !Less(key(t[i]), key(x)) && key(t[i]) != key(x)
    {
      if i > 0 {
        LessThenNotLess(key(x), key(t[0]), key(t[i]));
      }
      LessIrreflexive(key(x));
      if Less(key(t[i]), key(x)) {
        LessTransitive(key(x), key(t[i]), key(x));
      }
    }
  }

  /** `x` placed after every entry of `t` whose key is not above its own. */
  function Insert<T>(x: T, t: seq<T>, key: T -> string): (r: seq<T>)
    ensures multiset(r) == multiset(t) + multiset{x}
    decreases |t|
  {
    if |t| == 0 then [x]
    else if Less(key(x), key(t[0])) then [x] + t
    else
      assert t == [t[0]] + t[1..];
      [t[0]] + Insert(x, t[1..], key)
  }

  /** Putting `x` in front of a sorted sequence whose keys are not below its own keeps it sorted. */
  lemma ConsSorted<T>(x: T, t: seq<T>, key: T -> string)
    requires SortedBy(t, key) && forall i :: 0 <= i < |t| ==> !Less(key(t[i]), key(x))
    ensures SortedBy([x] + t, key)
  {
    var r := [x] + t;
    forall i, j | 0 <= i < j < |r|
      ensures !Less(key(r[j]), key(r[i]))
    {
      assert r[j] == t[j - 1];
      if i > 0 {
        assert r[i] == t[i - 1];
      }
    }
  }

  lemma {:induction false} InsertSorted<T>(x: T, t: seq<T>, key: T -> string)
    requires SortedBy(t, key)
    ensures SortedBy(Insert(x, t, key), key)
    decreases |t|
  {
    if |t| == 0 {
    } else if Less(key(x), key(t[0])) {
      AboveAll(x, t, key);
      ConsSorted(x, t, key);
    } else {
      var rest := Insert(x, t[1..], key);
      SortedTail(t, key);
      InsertSorted(x, t[1..], key);
      forall j | 0 <= j < |rest|
        ensures !Less(key(rest[j]), key(t[0]))
      {
        assert rest[j] in multiset(rest);
        if rest[j] != x {
          assert rest[j] in t[1..];
          var k :| 0 <= k < |t[1..]| && t[1..][k] == rest[j];
          assert t[k + 1] == rest[j];
        }
      }
      ConsSorted(t[0], rest, key);
    }
  }

  /** Inserting into a sorted sequence keeps every key's entries in their order, `x` last among its own. */
  lemma {:induction false} InsertStable<T>(x: T, t: seq<T>, key: T -> string, k: string)
    requires SortedBy(t, key)
    ensures WithKey(Insert(x, t, key), key, k) == WithKey(t, key, k) + (if key(x) == k then [x] else [])
    decreases |t|
  {
    if |t| == 0 {
      WithKeyCons(x, [], key, k);
    } else if Less(key(x), key(t[0])) {
      WithKeyCons(x, t, key, k);
      if key(x) == k {
        AboveAll(x, t, key);
        WithKeyNone(t, key, k);
      }
    } else {
      assert t == [t[0]] + t[1..];
      SortedTail(t, key);
      InsertStable(x, t[1..], key, k);
      WithKeyCons(t[0], Insert(x, t[1..], key), key, k);
      WithKeyCons(t[0], t[1..], key, k);
    }
  }

  /** `sort_by` on a key: a stable sort, here by insertion. */
  function SortBy<T>(s: seq<T>, key: T -> string): (r: seq<T>)
    ensures multiset(r) == multiset(s)
    ensures SortedBy(r, key)
    decreases |s|
  {
    if |s| == 0 then []
    else
      var x := s[|s| - 1];
      var r := SortBy(s[..|s| - 1], key);
      InsertSorted(x, r, key);
      assert s == s[..|s| - 1] + [x];
      Insert(x, r, key)
  }

  /** The sort keeps the entries of every key in the order they came in. */
  lemma {:induction false} SortStable<T>(s: seq<T>, key: T -> string, k: string)
    ensures WithKey(SortBy(s, key), key, k) == WithKey(s, key, k)
    decreases |s|
  {
    if |s| > 0 {
      var s' := s[..|s| - 1];
      SortStable(s', key, k);
      InsertStable(s[|s| - 1], SortBy(s', key), key, k);
      assert s == s' + [s[|s| - 1]];
      WithKeySnoc(s', s[|s| - 1], key, k);
    }
  }

  /**
   * `dedup_by` on a key: an entry is dropped when its key equals the key of
   * the last entry kept.
   */
  function DedupBy<T>(s: seq<T>, key: T -> string): (r: seq<T>)
    ensures |r| <= |s|
    ensures |s| > 0 ==> |r| > 0 && key(r[|r| - 1]) == key(s[|s| - 1])
    ensures forall i :: 0 <= i < |r| - 1 ==> key(r[i]) != key(r[i + 1])
    decreases |s|
  {
    if |s| == 0 then []
    else
      var x := s[|s| - 1];
      var r := DedupBy(s[..|s| - 1], key);
      if |r| > 0 && key(r[|r| - 1]) == key(x) then r else r + [x]
  }

  /** Keys strictly increase along `r`. */
  ghost predicate StrictlyIncreasing<T>(r: seq<T>, key: T -> string) {
    forall i, j :: 0 <= i < j < |r| ==> Less(key(r[i]), key(r[j]))
  }

  /** Every entry of `r` is the first entry of `s` with its key. */
  ghost predicate KeepsFirst<T>(r: seq<T>, s: seq<T>, key: T -> string) {
    forall i :: 0 <= i < |r| ==> WithKey(s, key, key(r[i])) != [] && r[i] == WithKey(s, key, key(r[i]))[0]
  }

  /** Every key of `s` is the key of an entry of `r`. */
  ghost predicate CoversKeys<T>(r: seq<T>, s: seq<T>, key: T -> string) {
    forall a :: a in s ==> exists i :: 0 <= i < |r| && key(r[i]) == key(a)
  }

  /** Entries of equal key stand together. */
  ghost predicate Grouped<T>(s: seq<T>, key: T -> string) {
    forall i, j :: 0 <= i < j < |s| && key(s[i]) == key(s[j]) ==> key(s[j - 1]) == key(s[j])
  }

  lemma SortedGrouped<T>(s: seq<T>, key: T -> string)
    requires SortedBy(s, key)
    ensures Grouped(s, key)
  {
    forall i, j | 0 <= i < j < |s| && key(s[i]) == key(s[j])
      ensures key(s[j - 1]) == key(s[j])
    {
      if i < j - 1 {
        NotLessAntisymmetric(key(s[j - 1]), key(s[j]));
      }
    }
  }

  lemma GroupedPrefix<T>(s: seq<T>, n: nat, key: T -> string)
    requires n <= |s| && Grouped(s, key)
    ensures Grouped(s[..n], key)
  {
    forall i, j | 0 <= i < j < n && key(s[..n][i]) == key(s[..n][j])
      ensures key(s[..n][j - 1]) == key(s[..n][j])
    {
      assert s[..n][i] == s[i] && s[..n][j] == s[j] && s[..n][j - 1] == s[j - 1];
    }
  }

  /** In a grouped sequence, a key that differs from the last one's appears nowhere before. */
  lemma FreshKey<T>(s: seq<T>, x: T, key: T -> string)
    requires |s| > 0 && Grouped(s + [x], key) && key(s[|s| - 1]) != key(x)
    ensures forall j :: 0 <= j < |s| ==> key(s[j]) != key(x)
  {
    var s2 := s + [x];
    forall j | 0 <= j < |s|
      ensures key(s[j]) != key(x)
    {
      assert s2[j] == s[j] && s2[|s| - 1] == s[|s| - 1] && s2[|s|] == x;
    }
  }

  /** Adding an entry to `s` keeps the first entries `r` already has. */
  lemma KeepsFirstSnoc<T>(r: seq<T>, s: seq<T>, x: T, key: T -> string)
    requires KeepsFirst(r, s, key)
    ensures KeepsFirst(r, s + [x], key)
  {
    forall i | 0 <= i < |r|
      ensures WithKey(s + [x], key, key(r[i])) != [] && r[i] == WithKey(s + [x], key, key(r[i]))[0]
    {
      WithKeySnoc(s, x, key, key(r[i]));
    }
  }

  /** An entry of a key not seen before is the first of its key. */
  lemma KeepsFirstFresh<T>(r: seq<T>, s: seq<T>, x: T, key: T -> string)
    requires KeepsFirst(r, s + [x], key)
    requires forall j :: 0 <= j < |s| ==> key(s[j]) != key(x)
    ensures KeepsFirst(r + [x], s + [x], key)
  {
    WithKeyNone(s, key, key(x));
    WithKeySnoc(s, x, key, key(x));
    var r2 := r + [x];
    forall i | 0 <= i < |r2|
      ensures WithKey(s + [x], key, key(r2[i])) != [] && r2[i] == WithKey(s + [x], key, key(r2[i]))[0]
    {
      if i < |r| {
        assert r2[i] == r[i];
      }
    }
  }

  /** The de-duplication of a grouped sequence keeps the first entry of each key. */
  lemma {:induction false} DedupKeepsFirst<T>(s: seq<T>, key: T -> string)
    requires Grouped(s, key)
    ensures KeepsFirst(DedupBy(s, key), s, key)
    decreases |s|
  {
    if |s| > 0 {
      var s' := s[..|s| - 1];
      assert s == s' + [s[|s| - 1]];
      GroupedPrefix(s, |s| - 1, key);
      DedupKeepsFirst(s', key);
      DedupKeepsFirstStep(s', s[|s| - 1], key);
    }
  }

  /** One more element keeps the first of each key, whether it joins the last run or starts a new one. */
  lemma DedupKeepsFirstStep<T>(s': seq<T>, x: T, key: T -> string)
    requires Grouped(s' + [x], key) && KeepsFirst(DedupBy(s', key), s', key)
    ensures KeepsFirst(DedupBy(s' + [x], key), s' + [x], key)
  {
    var s := s' + [x];
    var r' := DedupBy(s', key);
    assert s[..|s| - 1] == s' && s[|s| - 1] == x;
    KeepsFirstSnoc(r', s', x, key);
    if |r'| > 0 && key(r'[|r'| - 1]) == key(x) {
      assert DedupBy(s, key) == r';
    } else {
      assert DedupBy(s, key) == r' + [x];
      if |s'| > 0 {
        FreshKey(s', x, key);
      }
      KeepsFirstFresh(r', s', x, key);
    }
  }

  /** A key above every key of a strictly increasing sequence extends it. */
  lemma IncreasingSnoc<T>(r: seq<T>, x: T, key: T -> string)
    requires StrictlyIncreasing(r, key)
    requires |r| > 0 ==> Less(key(r[|r| - 1]), key(x))
    ensures StrictlyIncreasing(r + [x], key)
  {
    var r2 := r + [x];
    forall i, j | 0 <= i < j < |r2|
      ensures Less(key(r2[i]), key(r2[j]))
    {
      assert r2[i] == r[i];
      if j == |r| {
        if i < |r| - 1 {
          LessTransitive(key(r[i]), key(r[|r| - 1]), key(x));
        }
      } else {
        assert r2[j] == r[j];
      }
    }
  }

  /** The de-duplication of a sorted sequence has strictly increasing keys. */
  lemma {:induction false} DedupIncreasing<T>(s: seq<T>, key: T -> string)
    requires SortedBy(s, key)
    ensures StrictlyIncreasing(DedupBy(s, key), key)
    decreases |s|
  {
    if |s| > 0 {
      var s' := s[..|s| - 1];
      var x := s[|s| - 1];
      var r' := DedupBy(s', key);
      assert s == s' + [x];
      SortedPrefix(s, |s| - 1, key);
      DedupIncreasing(s', key);
      if |r'| > 0 && key(r'[|r'| - 1]) == key(x) {
        assert DedupBy(s, key) == r';
      } else {
        assert DedupBy(s, key) == r' + [x];
        if |r'| > 0 {
          assert !Less(key(x), key(s[|s| - 2]));
          LessTotal(key(x), key(s[|s| - 2]));
        }
        IncreasingSnoc(r', x, key);
      }
    }
  }

  /** The de-duplication keeps an entry of every key, sorted or not. */
  lemma {:induction false} DedupCovers<T>(s: seq<T>, key: T -> string)
    ensures CoversKeys(DedupBy(s, key), s, key)
    decreases |s|
  {
    if |s| > 0 {
      var s' := s[..|s| - 1];
      var x := s[|s| - 1];
      var r := DedupBy(s, key);
      var r' := DedupBy(s', key);
      DedupCovers(s', key);
      assert forall i :: 0 <= i < |r'| ==> r[i] == r'[i];
      forall a | a in s
        ensures exists i :: 0 <= i < |r| && key(r[i]) == key(a)
      {
        if a == x {
          assert key(r[|r| - 1]) == key(a);
        } else {
          assert a in s';
        }
      }
    }
  }

  /**
   * On a sorted sequence the de-duplication keeps one entry per key, in
   * strictly increasing key order, and the one it keeps is the first entry
   * of that key.
   */
  lemma DedupSorted<T>(s: seq<T>, key: T -> string)
    requires SortedBy(s, key)
    ensures StrictlyIncreasing(DedupBy(s, key), key)
    ensures KeepsFirst(DedupBy(s, key), s, key)
    ensures CoversKeys(DedupBy(s, key), s, key)
  {
    DedupIncreasing(s, key);
    SortedGrouped(s, key);
    DedupKeepsFirst(s, key);
    DedupCovers(s, key);
  }

  // ---------------------------------------------------------------------
  // The command.
  // ---------------------------------------------------------------------

  /** The sort and de-duplication key: the lower-cased name. */
  function Key(a: AppInfo): string {
    Lower(a.name)
  }

  /** The entries of all scanned folders, in scan order. */
  function Scanned(userFolder: Option<seq<DirEntry>>, commonFolder: Option<seq<DirEntry>>): seq<AppInfo> {
    (if userFolder.Some? then Scan(userFolder.value) else [])
    + (if commonFolder.Some? then Scan(commonFolder.value) else [])
  }

  /**
   * `enumerate_installed_apps`: the per-user Start-menu folder, then the
   * all-users one (None when its variable is unset or the folder is missing),
   * scanned in that order, sorted by name and de-duplicated.
   */
  function InstalledApps(userFolder: Option<seq<DirEntry>>, commonFolder: Option<seq<DirEntry>>): (r: seq<AppInfo>)
    ensures |r| <= |Scanned(userFolder, commonFolder)|
    ensures StrictlyIncreasing(r, Key)
  {
    var sorted := SortBy(Scanned(userFolder, commonFolder), Key);
    assert |sorted| == |multiset(sorted)| == |multiset(Scanned(userFolder, commonFolder))|;
    DedupIncreasing(sorted, Key);
    DedupBy(sorted, Key)
  }

  /**
   * The list holds one application per lower-cased name, in strictly
   * increasing name order; every scanned name is represented; and the entry
   * kept for a name is the first one scanned, so the per-user folder wins.
   */
  lemma InstalledAppsOnePerName(userFolder: Option<seq<DirEntry>>, commonFolder: Option<seq<DirEntry>>)
    ensures var scanned := Scanned(userFolder, commonFolder);
            var r := InstalledApps(userFolder, commonFolder);
            StrictlyIncreasing(r, Key) && CoversKeys(r, scanned, Key) && KeepsFirst(r, scanned, Key)
  {
    var scanned := Scanned(userFolder, commonFolder);
    var sorted := SortBy(scanned, Key);
    var r := DedupBy(sorted, Key);
    DedupSorted(sorted, Key);
    forall a | a in scanned
      ensures exists i :: 0 <= i < |r| && Key(r[i]) == Key(a)
    {
      assert a in multiset(scanned);
      assert a in sorted;
    }
    forall i | 0 <= i < |r|
      ensures WithKey(scanned, Key, Key(r[i])) != [] && r[i] == WithKey(scanned, Key, Key(r[i]))[0]
    {
      SortStable(scanned, Key, Key(r[i]));
    }
  }

  // ---------------------------------------------------------------------
  // Waiting for the launched application's window.
  // ---------------------------------------------------------------------

  /** The handles of the windows listed before the launch. */
  function Handles(windows: seq<WindowInfo>): set<Handle> {
    set i | 0 <= i < |windows| :: windows[i].hwnd
  }

  /** The first listed window that was not there before the launch. */
  function FirstNewWindow(before: set<Handle>, current: seq<WindowInfo>): (r: Option<Handle>)
    ensures r.None? <==> forall i :: 0 <= i < |current| ==> current[i].hwnd in before
    ensures r.Some? ==> r.value !in before
    ensures r.Some? ==> exists i :: 0 <= i < |current| && current[i].hwnd == r.value
                                    && forall j :: 0 <= j < i ==> current[j].hwnd in before
    decreases |current|
  {
    if |current| == 0 then None
    else if current[0].hwnd !in before then Some(current[0].hwnd)
    else
      var r := FirstNewWindow(before, current[1..]);
      assert forall i :: 0 < i < |current| ==> current[i] == current[1..][i - 1];
      assert r.Some? ==> exists i :: 0 <= i < |current| && current[i].hwnd == r.value
                                     && forall j :: 0 <= j < i ==> current[j].hwnd in before by {
        if r.Some? {
          var i :| 0 <= i < |current[1..]| && current[1..][i].hwnd == r.value
                   && forall j :: 0 <= j < i ==> current[1..][j].hwnd in before;
          assert current[i + 1].hwnd == r.value;
        }
      }
      r
  }

  /** A window listed before the launch is never taken for the launched one. */
  lemma OldWindowsIgnored(before: seq<WindowInfo>)
    ensures FirstNewWindow(Handles(before), before) == None
  {
    forall i | 0 <= i < |before|
      ensures before[i].hwnd in Handles(before)
    {
    }
  }

  /** How many times `launch_app` lists the windows, 100 ms apart, before giving up. */
  const MaxPolls: nat := 100

  /** Why `launch_app` fails: the process could not be started, or no new window appeared. */
  datatype LaunchError = SpawnFailed | NoNewWindow

  /** `path.ends_with(".lnk")`: shortcuts are opened through the shell, anything else is run directly. */
  predicate ViaShell(path: string) {
    |path| >= 4 && path[|path| - 4..] == ".lnk"
  }

  /**
   * An application the scan yields from an entry whose path ends in its file
   * name (the walk joins the folder and the name) is opened through the
   * shell exactly when its file is a `.lnk` shortcut, and run directly when
   * it is an `.exe`.
   */
  lemma LaunchRoute(folder: string, e: DirEntry)
    requires e.path == folder + e.fileName && Candidate(e).Some?
    ensures ViaShell(Candidate(e).value.path) <==> e.fileName == Candidate(e).value.name + ".lnk"
    ensures !ViaShell(Candidate(e).value.path) <==> e.fileName == Candidate(e).value.name + ".exe"
  {
    var a := Candidate(e).value;
    var ext := e.fileName[|e.fileName| - 4..];
    assert ext == ".lnk" || ext == ".exe";
    assert e.fileName == a.name + ext;
    assert a.path == folder + a.name + ext;
    assert a.path[|a.path| - 4..] == ext;
  }

  /**
   * The polling loop of `launch_app`: given the window lists its polls would
   * see, the first new window of the first poll that has one, or a failure
   * after the last poll.
   */
  method WaitForNewWindow(before: set<Handle>, polls: seq<seq<WindowInfo>>) returns (r: Result<Handle, LaunchError>)
    requires |polls| == MaxPolls
    ensures r.Ok? ==> exists k :: 0 <= k < |polls| && FirstNewWindow(before, polls[k]) == Some(r.value)
                                  && forall j :: 0 <= j < k ==> FirstNewWindow(before, polls[j]).None?
    ensures r.Err? <==> forall k :: 0 <= k < |polls| ==> FirstNewWindow(before, polls[k]).None?
    ensures r.Err? ==> r.error == NoNewWindow
  {
    for k := 0 to |polls|
      invariant forall j :: 0 <= j < k ==> FirstNewWindow(before, polls[j]).None?
    {
      var found := FirstNewWindow(before, polls[k]);
      if found.Some? {
        return Ok(found.value);
      }
    }
    return Err(NoNewWindow);
  }

  /**
   * `launch_app`, from the window list before the launch, whether the spawn
   * succeeded, and the lists the polls would see: a failed spawn is reported
   * at once; otherwise the answer is the first new window of the first poll
   * that shows one, or a failure after the last poll.
   */
  method Launch(before: seq<WindowInfo>, spawned: bool, polls: seq<seq<WindowInfo>>) returns (r: Result<Handle, LaunchError>)
    requires |polls| == MaxPolls
    ensures r == Err(SpawnFailed) <==> !spawned
    ensures r.Ok? ==> exists k :: 0 <= k < |polls| && FirstNewWindow(Handles(before), polls[k]) == Some(r.value)
                                  && forall j :: 0 <= j < k ==> FirstNewWindow(Handles(before), polls[j]).None?
    ensures r.Ok? ==> r.value !in Handles(before)
    ensures r == Err(NoNewWindow) <==> spawned && forall k :: 0 <= k < |polls| ==> FirstNewWindow(Handles(before), polls[k]).None?
  {
    if !spawned {
      return Err(SpawnFailed);
    }
    r := WaitForNewWindow(Handles(before), polls);
  }
}
