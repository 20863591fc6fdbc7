/** Trip storage on the phone: the per-trip file paths, the listing and
    clean-up of trip folders, the size of a trip folder, and the storage
    arithmetic. The app's external files directory is a tree of nodes
    whose children appear in the order the platform lists them. */
module FileManager {
  import opened Common
  import opened Text
  import opened Models

  const TRIP_FOLDER_NAME: string := "trips"

  /** The files a trip folder may hold. */
  datatype TripFile = Video | Gps | GpsGpx | Imu | Metadata | Esp32Gps | Esp32GpsGpx | Esp32Imu

  function FileName(k: TripFile): (name: string)
    ensures |name| > 0 && '/' !in name
  {
    match k
    case Video => "video.mp4"
    case Gps => "gps_data.csv"
    case GpsGpx => "gps_data.gpx"
    case Imu => "imu_data.csv"
    case Metadata => "metadata.json"
    case Esp32Gps => "esp32_gps.csv"
    case Esp32GpsGpx => "esp32_gps.gpx"
    case Esp32Imu => "esp32_imu.csv"
  }

  /** The eight names are pairwise distinct. */
  lemma FileNamesDistinct(a: TripFile, b: TripFile)
    requires FileName(a) == FileName(b)
    ensures a == b
  {
  }

  /** A file (its length in bytes) or a directory (its entries in listing
      order); both carry a last-modified time. */
  datatype Node =
    | File(name: string, length: nat, lastModified: Int64)
    | Dir(name: string, lastModified: Int64, children: seq<Node>)

  /** `File(dir, name)`. */
  function Join(dir: string, name: string): string {
    dir + "/" + name
  }

  /** The first entry of a directory with the given name. */
  function ChildIndex(children: seq<Node>, name: string): (r: Option<nat>)
    ensures r.Some? ==> r.value < |children| && children[r.value].name == name
    ensures r.Some? ==> forall j :: 0 <= j < r.value ==> children[j].name != name
    ensures r.None? <==> forall j :: 0 <= j < |children| ==> children[j].name != name
  {
    if children == [] then None
    else if children[0].name == name then Some(0)
    else
      var r := ChildIndex(children[1..], name);
      if r.None? then None else Some(r.value + 1)
  }

  // ---------------------------------------------------------------------
  // Per-trip paths
  // ---------------------------------------------------------------------

  /** `getTripDirectory`: `<externalFilesDir>/<tripId>`, created (as by
      `mkdirs`) at time `now` when no entry of that name exists. */
  function GetTripDirectory(root: Node, ext: string, id: TripId, now: Int64): (r: (Node, string))
    requires root.Dir?
    ensures r.1 == Join(ext, IntToDecimal(id))
    ensures r.0.Dir? && r.0.name == root.name && ChildIndex(r.0.children, IntToDecimal(id)).Some?
    ensures ChildIndex(root.children, IntToDecimal(id)).Some? ==> r.0 == root
    ensures ChildIndex(root.children, IntToDecimal(id)).None? ==>
      r.0 == root.(children := root.children + [Dir(IntToDecimal(id), now, [])])
  {
    var name := IntToDecimal(id);
    if ChildIndex(root.children, name).Some? then (root, Join(ext, name))
    else
      var r := root.(children := root.children + [Dir(name, now, [])]);
      assert r.children[|root.children|].name == name;
      (r, Join(ext, name))
  }

  /** The path of one of a trip's files. */
  function TripFilePath(ext: string, id: TripId, k: TripFile): string {
    Join(Join(ext, IntToDecimal(id)), FileName(k))
  }

  /** `getVideoFile`, `getGPSFile`, ... : the named file in the trip's folder,
      whose creation is the only effect. */
  function GetTripFile(root: Node, ext: string, id: TripId, k: TripFile, now: Int64): (r: (Node, string))
    requires root.Dir?
    ensures r.0 == GetTripDirectory(root, ext, id, now).0
    ensures r.1 == ext + "/" + IntToDecimal(id) + "/" + FileName(k) == TripFilePath(ext, id, k)
  {
    var (root1, dir) := GetTripDirectory(root, ext, id, now);
    (root1, Join(dir, FileName(k)))
  }

  /** The position of the first '/' (the length when there is none). */
  function FirstSlash(s: string): (r: nat)
    ensures r <= |s|
  {
    if s == [] || s[0] == '/' then 0 else 1 + FirstSlash(s[1..])
  }

  lemma {:induction false} FirstSlashAfter(a: string, x: string)
    requires '/' !in a
    ensures FirstSlash(a + "/" + x) == |a|
  {
    if a != [] {
      assert (a + "/" + x)[1..] == a[1..] + "/" + x;
      FirstSlashAfter(a[1..], x);
    }
  }

  /** Strings without '/' glued by '/' split back uniquely. */
  lemma SplitAtSlash(a: string, b: string, x: string, y: string)
    requires '/' !in a && '/' !in b
    requires a + "/" + x == b + "/" + y
    ensures a == b && x == y
  {
    var s := a + "/" + x;
    FirstSlashAfter(a, x);
    FirstSlashAfter(b, y);
    assert a == s[..|a|] == b;
    assert x == s[|a| + 1..] == y;
  }

  /** Names starting with different characters give different paths
      under any folder. */
  lemma JoinFirstCharDiffers(dir: string, x: string, y: string)
    requires |x| > 0 && |y| > 0 && x[0] != y[0]
    ensures Join(dir, x) != Join(dir, y)
  {
    assert Join(dir, x)[|dir| + 1] == x[0];
    assert Join(dir, y)[|dir| + 1] == y[0];
  }

  /** Paths under one folder differ when the names do. */
  lemma JoinCancel(dir: string, x: string, y: string)
    requires Join(dir, x) == Join(dir, y)
    ensures x == y
  {
    assert x == Join(dir, x)[|dir| + 1..];
    assert y == Join(dir, y)[|dir| + 1..];
  }

  /** Two-level paths under one folder, whose middle names have no '/',
      agree only when both names do. */
  lemma NestedJoinCancel(dir: string, a: string, b: string, x: string, y: string)
    requires '/' !in a && '/' !in b
    requires Join(Join(dir, a), x) == Join(Join(dir, b), y)
    ensures a == b && x == y
  {
    assert Join(Join(dir, a), x) == Join(dir, Join(a, x));
    assert Join(Join(dir, b), y) == Join(dir, Join(b, y));
    JoinCancel(dir, Join(a, x), Join(b, y));
    SplitAtSlash(a, b, x, y);
  }

  /** Different trips or different kinds never share a path. */
  lemma TripFilePathInjective(ext: string, a: TripId, b: TripId, ka: TripFile, kb: TripFile)
    requires TripFilePath(ext, a, ka) == TripFilePath(ext, b, kb)
    ensures a == b && ka == kb
  {
    IntToDecimalChars(a);
    IntToDecimalChars(b);
    NestedJoinCancel(ext, IntToDecimal(a), IntToDecimal(b), FileName(ka), FileName(kb));
    IntToDecimalInjective(a, b);
    FileNamesDistinct(ka, kb);
  }

  /** The files `getVideoFile`, `getGPSFile`, ... return for different trips
      or different kinds never share a path. */
  lemma TripFilePathsDistinct(root: Node, ext: string, a: TripId, b: TripId, ka: TripFile, kb: TripFile, now: Int64)
    requires root.Dir?
    requires GetTripFile(root, ext, a, ka, now).1 == GetTripFile(root, ext, b, kb, now).1
    ensures a == b && ka == kb
  {
    TripFilePathInjective(ext, a, b, ka, kb);
  }

  // ---------------------------------------------------------------------
  // Listing trip folders
  // ---------------------------------------------------------------------

  /** A listed folder: its path and its node. */
  datatype Listed = Listed(path: string, node: Node)

  function Stamp(l: Listed): int {
    l.node.lastModified
  }

  /** `x` may stand ahead of `y` in the requested order. */
  predicate Ahead(x: Listed, y: Listed, descending: bool) {
    if descending then Stamp(x) >= Stamp(y) else Stamp(x) <= Stamp(y)
  }

  predicate SortedBy(ls: seq<Listed>, descending: bool) {
    forall i, j :: 0 <= i < j < |ls| ==> Ahead(ls[i], ls[j], descending)
  }

  /** A sorted list stays sorted under a head that may stand ahead of all
      its entries. */
  lemma ConsSorted(h: Listed, t: seq<Listed>, descending: bool)
    requires SortedBy(t, descending)
    requires forall y :: y in t ==> Ahead(h, y, descending)
    ensures SortedBy([h] + t, descending)
  {
    var r := [h] + t;
    forall i, j | 0 <= i < j < |r|
      ensures Ahead(r[i], r[j], descending)
    {
      assert r[j] == t[j - 1];
      if i > 0 {
        assert r[i] == t[i - 1];
      } else {
        assert t[j - 1] in t;
      }
    }
  }

  /** Insert into a sorted list before the first entry it may stand ahead
      of. */
  function Insert(x: Listed, ls: seq<Listed>, descending: bool): (r: seq<Listed>)
    requires SortedBy(ls, descending)
    ensures multiset(r) == multiset(ls) + multiset{x}
    ensures forall y :: y in r ==> y == x || y in ls
    ensures SortedBy(r, descending)
  {
    if ls == [] then [x]
    else if Ahead(x, ls[0], descending) then
      assert forall y :: y in ls ==> Ahead(x, y, descending) by {
        forall y | y in ls ensures Ahead(x, y, descending) {
          var j :| 0 <= j < |ls| && ls[j] == y;
          assert j == 0 || Ahead(ls[0], ls[j], descending);
        }
      }
      ConsSorted(x, ls, descending);
      [x] + ls
    else
      var t := Insert(x, ls[1..], descending);
      assert ls == [ls[0]] + ls[1..];
      assert forall y :: y in ls[1..] ==> Ahead(ls[0], y, descending) by {
        forall y | y in ls[1..] ensures Ahead(ls[0], y, descending) {
          var j :| 0 <= j < |ls[1..]| && ls[1..][j] == y;
          assert ls[j + 1] == y;
        }
      }
      ConsSorted(ls[0], t, descending);
      [ls[0]] + t
  }

  /** `sortedBy` / `sortedByDescending` on the last-modified time. */
  function SortBy(ls: seq<Listed>, descending: bool): (r: seq<Listed>)
    ensures SortedBy(r, descending)
    ensures multiset(r) == multiset(ls)
  {
    if ls == [] then []
    else
      assert ls == [ls[0]] + ls[1..];
      Insert(ls[0], SortBy(ls[1..], descending), descending)
  }

  /** The directory entries of a folder, with their paths, in listing order. */
  function Subdirectories(children: seq<Node>, path: string): (r: seq<Listed>)
    ensures forall i :: 0 <= i < |r| ==> r[i].node.Dir? && r[i].path == Join(path, r[i].node.name) && r[i].node in children
    ensures forall i :: 0 <= i < |children| && children[i].Dir? ==> Listed(Join(path, children[i].name), children[i]) in r
  {
    if children == [] then []
    else
      var rest := Subdirectories(children[1..], path);
      assert forall i :: 1 <= i < |children| ==> children[i] == children[1..][i - 1];
      if children[0].Dir? then [Listed(Join(path, children[0].name), children[0])] + rest else rest
  }

  /** The directories of a folder, newest first. */
  function ListNewestFirst(folder: Node, path: string): (r: seq<Listed>)
    requires folder.Dir?
    ensures SortedBy(r, true)
    ensures multiset(r) == multiset(Subdirectories(folder.children, path))
    ensures forall i :: 0 <= i < |r| ==> r[i].node.Dir? && r[i].path == Join(path, r[i].node.name) && r[i].node in folder.children
  {
    var subs := Subdirectories(folder.children, path);
    var r := SortBy(subs, true);
    forall i | 0 <= i < |r|
      ensures r[i] in subs
    {
      assert r[i] in multiset(r);
    }
    r
  }

  /** `<externalFilesDir>/trips`, when it exists as a directory. */
  function TripsFolder(root: Node): (r: Option<Node>)
    requires root.Dir?
    ensures r.Some? ==> r.value.Dir? && r.value.name == TRIP_FOLDER_NAME
    ensures r.Some? <==> ChildIndex(root.children, TRIP_FOLDER_NAME).Some? && root.children[ChildIndex(root.children, TRIP_FOLDER_NAME).value].Dir?
    ensures r.Some? ==> r.value == root.children[ChildIndex(root.children, TRIP_FOLDER_NAME).value]
  {
    var i := ChildIndex(root.children, TRIP_FOLDER_NAME);
    if i.None? || root.children[i.value].File? then None else Some(root.children[i.value])
  }

  /** `getAllTrips`: the directories in `<externalFilesDir>/trips`, newest
      first; nothing when that folder is missing or is not a directory. */
  function GetAllTrips(root: Node, ext: string): (r: seq<Listed>)
    requires root.Dir?
    ensures SortedBy(r, true)
    ensures forall i :: 0 <= i < |r| ==> r[i].node.Dir? && r[i].path == Join(Join(ext, TRIP_FOLDER_NAME), r[i].node.name)
    ensures ChildIndex(root.children, TRIP_FOLDER_NAME).None? ==> r == []
    ensures TripsFolder(root).None? ==> r == []
    ensures TripsFolder(root).Some? ==> forall i :: 0 <= i < |r| ==> r[i].node in TripsFolder(root).value.children
  {
    var i := ChildIndex(root.children, TRIP_FOLDER_NAME);
    if i.None? || root.children[i.value].File? then []
    else
      ListNewestFirst(root.children[i.value], Join(ext, TRIP_FOLDER_NAME))
  }

  /** The entries of a list sorted oldest first split at `k`: each entry
      before the split is no newer than each entry after it. */
  lemma SplitSorted(s: seq<Listed>, k: nat)
    requires SortedBy(s, false) && k <= |s|
    ensures forall x, y :: x in s[..k] && y in s[k..] ==> Stamp(x) <= Stamp(y)
  {
    forall x, y | x in s[..k] && y in s[k..]
      ensures Stamp(x) <= Stamp(y)
    {
      var i :| 0 <= i < k && s[..k][i] == x;
      var j :| 0 <= j < |s| - k && s[k..][j] == y;
      assert s[..k][i] == s[i] && s[k..][j] == s[k + j];
      assert Ahead(s[i], s[k + j], false);
    }
  }

  /** The oldest `count` entries (all of them if there are fewer) and the
      rest. */
  function TakeOldest(ls: seq<Listed>, count: nat): (r: (seq<Listed>, seq<Listed>))
    ensures |r.0| == if count < |ls| then count else |ls|
    ensures multiset(r.0) + multiset(r.1) == multiset(ls)
    ensures forall x, y :: x in r.0 && y in r.1 ==> Stamp(x) <= Stamp(y)
  {
    var s := SortBy(ls, false);
    var k := if count < |s| then count else |s|;
    assert s == s[..k] + s[k..];
    SplitSorted(s, k);
    (s[..k], s[k..])
  }

  /** A folder with the entries at the given paths removed (`deleteRecursively`). */
  function RemoveListed(folder: Node, path: string, gone: seq<Listed>): (r: Node)
    requires folder.Dir?
    ensures r.Dir? && r.name == folder.name
    ensures forall c :: c in r.children <==> c in folder.children && Listed(Join(path, c.name), c) !in gone && Join(path, c.name) !in PathsOf(gone)
  {
    folder.(children := FilterChildren(folder.children, path, PathsOf(gone), gone))
  }

  function PathsOf(ls: seq<Listed>): set<string> {
    set i | 0 <= i < |ls| :: ls[i].path
  }

  function FilterChildren(children: seq<Node>, path: string, paths: set<string>, gone: seq<Listed>): (r: seq<Node>)
    ensures forall c :: c in r <==> c in children && Listed(Join(path, c.name), c) !in gone && Join(path, c.name) !in paths
  {
    if children == [] then []
    else
      var rest := FilterChildren(children[1..], path, paths, gone);
      assert forall c :: c in children <==> c == children[0] || c in children[1..];
      var c := children[0];
      if Listed(Join(path, c.name), c) !in gone && Join(path, c.name) !in paths then [c] + rest else rest
  }

  /** `cleanupOldestTrips`: delete the `count` least recently modified trip
      folders. A negative count is rejected (`take` throws). Only the trips
      folder changes: an entry of it stays exactly when no deleted folder
      has its path. */
  function CleanupOldestTrips(root: Node, ext: string, count: Int32): (r: Option<Node>)
    requires root.Dir?
    ensures count < 0 <==> r.None?
    ensures r.Some? ==> r.value.Dir?
    ensures r.Some? && TripsFolder(root).None? ==> r.value == root
    ensures count >= 0 && TripsFolder(root).Some? ==>
      var i := ChildIndex(root.children, TRIP_FOLDER_NAME).value;
      var gone := PathsOf(TakeOldest(GetAllTrips(root, ext), count as nat).0);
      && r.Some? && r.value.name == root.name && |r.value.children| == |root.children|
      && (forall j :: 0 <= j < |root.children| && j != i ==> r.value.children[j] == root.children[j])
      && r.value.children[i].Dir? && r.value.children[i].name == TRIP_FOLDER_NAME
      && (forall c :: c in r.value.children[i].children <==>
            c in root.children[i].children && Join(Join(ext, TRIP_FOLDER_NAME), c.name) !in gone)
  {
    if count < 0 then None
    else
      var gone := TakeOldest(GetAllTrips(root, ext), count as nat).0;
      var i := ChildIndex(root.children, TRIP_FOLDER_NAME);
      if i.None? || root.children[i.value].File? then Some(root)
      else
        var p := Join(ext, TRIP_FOLDER_NAME);
        GoneHavePaths(p, gone);
        var folder := RemoveListed(root.children[i.value], p, gone);
        Some(root.(children := root.children[i.value := folder]))
  }

  /** A deleted entry's path is among the deleted paths. */
  lemma GoneHavePaths(p: string, gone: seq<Listed>)
    ensures forall c: Node :: Listed(Join(p, c.name), c) in gone ==> Join(p, c.name) in PathsOf(gone)
  {
    forall c: Node | Listed(Join(p, c.name), c) in gone
      ensures Join(p, c.name) in PathsOf(gone)
    {
      var k :| 0 <= k < |gone| && gone[k] == Listed(Join(p, c.name), c);
      assert gone[k].path in PathsOf(gone);
    }
  }

  /** No two entries of a directory share a name, as in any file system. */
  predicate NamesUnique(children: seq<Node>) {
    forall a, b :: 0 <= a < b < |children| ==> children[a].name != children[b].name
  }

  lemma NamesUniqueSame(children: seq<Node>, x: Node, y: Node)
    requires NamesUnique(children) && x in children && y in children && x.name == y.name
    ensures x == y
  {
    var a :| 0 <= a < |children| && children[a] == x;
    var b :| 0 <= b < |children| && children[b] == y;
  }

  /** Clean-up deletes exactly the `count` oldest listed trips (all of them
      if there are fewer), and no deleted trip is newer than a kept one. */
  lemma CleanupDeletesOldest(root: Node, ext: string, count: Int32)
    requires root.Dir? && count >= 0
    requires TripsFolder(root).Some? && NamesUnique(TripsFolder(root).value.children)
    ensures var all := GetAllTrips(root, ext);
      var split := TakeOldest(all, count as nat);
      var after := CleanupOldestTrips(root, ext, count).value;
      var i := ChildIndex(root.children, TRIP_FOLDER_NAME).value;
      && |split.0| == (if count as int < |all| then count as int else |all|)
      && (forall x, y :: x in split.0 && y in split.1 ==> Stamp(x) <= Stamp(y))
      && after.children[i].Dir?
      && (forall l :: l in all ==> (l.node in after.children[i].children <==> l !in split.0))
  {
    var all := GetAllTrips(root, ext);
    var split := TakeOldest(all, count as nat);
    var gone := split.0;
    var p := Join(ext, TRIP_FOLDER_NAME);
    var t := TripsFolder(root).value;
    var i := ChildIndex(root.children, TRIP_FOLDER_NAME).value;
    var after := CleanupOldestTrips(root, ext, count).value;
    forall l | l in all
      ensures l.node in after.children[i].children <==> l !in gone
    {
      var k :| 0 <= k < |all| && all[k] == l;
      assert l.node in t.children && l.path == Join(p, l.node.name);
      if l in gone {
        var m :| 0 <= m < |gone| && gone[m] == l;
        assert gone[m].path in PathsOf(gone);
      } else if Join(p, l.node.name) in PathsOf(gone) {
        var m :| 0 <= m < |gone| && gone[m].path == Join(p, l.node.name);
        var g := gone[m];
        assert g in multiset(gone);
        assert g in multiset(all);
        var n :| 0 <= n < |all| && all[n] == g;
        assert g.node in t.children && g.path == Join(p, g.node.name);
        JoinCancel(p, g.node.name, l.node.name);
        NamesUniqueSame(t.children, g.node, l.node);
      }
    }
  }

  // ---------------------------------------------------------------------
  // Finding: trip folders are made where the listing does not look
  // ---------------------------------------------------------------------

  /** A trip folder's name never starts with "trips". */
  lemma TripDirectoryNotInTripsFolder(ext: string, id: TripId)
    ensures !StartsWith(Join(ext, IntToDecimal(id)), Join(ext, TRIP_FOLDER_NAME) + "/")
  {
    var d := IntToDecimal(id);
    IntToDecimalChars(id);
    var p := Join(ext, d);
    var q := Join(ext, TRIP_FOLDER_NAME) + "/";
    assert p[|ext| + 1] == d[0] != 't' == q[|ext| + 1];
    if |q| <= |p| {
      assert p[..|q|][|ext| + 1] != q[|ext| + 1];
    }
  }

  /** As written: a folder made by `getTripDirectory` is never among the
      folders `getAllTrips` returns, so `cleanupOldestTrips` cannot delete it. */
  lemma GetAllTripsMissesTripDirectory(root: Node, ext: string, id: TripId, now: Int64)
    requires root.Dir?
    ensures var (root1, dir) := GetTripDirectory(root, ext, id, now);
      forall l :: l in GetAllTrips(root1, ext) ==> l.path != dir
  {
    var (root1, dir) := GetTripDirectory(root, ext, id, now);
    TripDirectoryNotInTripsFolder(ext, id);
    forall l | l in GetAllTrips(root1, ext)
      ensures l.path != dir
    {
      var k :| 0 <= k < |GetAllTrips(root1, ext)| && GetAllTrips(root1, ext)[k] == l;
      assert StartsWith(l.path, Join(ext, TRIP_FOLDER_NAME) + "/");
    }
  }

  /** As written: `cleanupOldestTrips`, for any count, leaves a folder made
      by `getTripDirectory` in place. */
  lemma CleanupKeepsTripDirectory(root: Node, ext: string, id: TripId, now: Int64, count: Int32)
    requires root.Dir? && count >= 0
    ensures var root1 := GetTripDirectory(root, ext, id, now).0;
      var r := CleanupOldestTrips(root1, ext, count);
      r.Some? && ChildIndex(r.value.children, IntToDecimal(id)).Some?
  {
    var d := IntToDecimal(id);
    IntToDecimalChars(id);
    assert d[0] != TRIP_FOLDER_NAME[0];
    var root1 := GetTripDirectory(root, ext, id, now).0;
    var j := ChildIndex(root1.children, d).value;
    var i := ChildIndex(root1.children, TRIP_FOLDER_NAME);
    var r := CleanupOldestTrips(root1, ext, count).value;
    if i.Some? && root1.children[i.value].Dir? {
      assert i.value != j;
      assert r.children[j] == root1.children[j];
    }
    assert r.children[j].name == d;
  }

  /** The corrected listing: the directories `getTripDirectory` makes,
      i.e. those directly in the external files directory, newest first. */
  function GetAllTripsFixed(root: Node, ext: string): (r: seq<Listed>)
    requires root.Dir?
    ensures SortedBy(r, true)
    ensures multiset(r) == multiset(Subdirectories(root.children, ext))
  {
    ListNewestFirst(root, ext)
  }

  /** Corrected: every folder made by `getTripDirectory` is listed. */
  lemma GetAllTripsFixedFindsTripDirectory(root: Node, ext: string, id: TripId, now: Int64)
    requires root.Dir?
    requires forall c :: c in root.children && c.name == IntToDecimal(id) ==> c.Dir?
    ensures var (root1, dir) := GetTripDirectory(root, ext, id, now);
      exists l :: l in GetAllTripsFixed(root1, ext) && l.path == dir
  {
    var (root1, dir) := GetTripDirectory(root, ext, id, now);
    var i := ChildIndex(root1.children, IntToDecimal(id)).value;
    var c := root1.children[i];
    if ChildIndex(root.children, IntToDecimal(id)).None? {
      assert root1.children == root.children + [Dir(IntToDecimal(id), now, [])];
    } else {
      assert c in root.children;
    }
    assert c.Dir?;
    var l := Listed(Join(ext, c.name), c);
    assert l in Subdirectories(root1.children, ext);
    assert l in multiset(GetAllTripsFixed(root1, ext));
  }

  // ---------------------------------------------------------------------
  // Sizes
  // ---------------------------------------------------------------------

  function Sum(xs: seq<nat>): (r: nat)
    ensures xs == [] ==> r == 0
  {
    if xs == [] then 0 else xs[0] + Sum(xs[1..])
  }

  lemma {:induction false} SumConcat(a: seq<nat>, b: seq<nat>)
    ensures Sum(a + b) == Sum(a) + Sum(b)
  {
    if a != [] {
      assert (a + b)[1..] == a[1..] + b;
      SumConcat(a[1..], b);
    } else {
      assert a + b == b;
    }
  }

  /** The total length of the regular files in a tree. */
  function TreeSize(n: Node): nat
    decreases n
  {
    match n
    case File(_, len, _) => len
    case Dir(_, _, c) => Sum(seq(|c|, i requires 0 <= i < |c| => TreeSize(c[i])))
  }

  /** The lengths of the regular files `walkTopDown` visits, in visiting order. */
  function FileLengths(n: Node): seq<nat>
    decreases n
  {
    match n
    case File(_, len, _) => [len]
    case Dir(_, _, c) => Flatten(seq(|c|, i requires 0 <= i < |c| => FileLengths(c[i])))
  }

  function Flatten(xss: seq<seq<nat>>): seq<nat> {
    if xss == [] then [] else xss[0] + Flatten(xss[1..])
  }

  /** The recursive size is the sum over the files visited. */
  lemma {:induction false} TreeSizeIsSumOfFiles(n: Node)
    ensures TreeSize(n) == Sum(FileLengths(n))
    decreases n
  {
    match n
    case File(_, len, _) =>
      assert FileLengths(n) == [len];
    case Dir(_, _, c) =>
      forall i | 0 <= i < |c|
        ensures TreeSize(c[i]) == Sum(FileLengths(c[i]))
      {
        TreeSizeIsSumOfFiles(c[i]);
      }
      ForestSum(c);
  }

  lemma {:induction false} ForestSum(c: seq<Node>)
    requires forall i :: 0 <= i < |c| ==> TreeSize(c[i]) == Sum(FileLengths(c[i]))
    ensures Sum(seq(|c|, i requires 0 <= i < |c| => TreeSize(c[i])))
         == Sum(Flatten(seq(|c|, i requires 0 <= i < |c| => FileLengths(c[i]))))
  {
    var sizes := seq(|c|, i requires 0 <= i < |c| => TreeSize(c[i]));
    var lists := seq(|c|, i requires 0 <= i < |c| => FileLengths(c[i]));
    if c != [] {
      ForestSum(c[1..]);
      assert sizes[1..] == seq(|c[1..]|, i requires 0 <= i < |c[1..]| => TreeSize(c[1..][i]));
      assert lists[1..] == seq(|c[1..]|, i requires 0 <= i < |c[1..]| => FileLengths(c[1..][i]));
      SumConcat(lists[0], Flatten(lists[1..]));
    }
  }

  /** `getTripSize`: the sum as a `Long`, wrapping on overflow. */
  function GetTripSize(n: Node): (r: Int64)
    ensures TreeSize(n) < 0x8000_0000_0000_0000 ==> r == Sum(FileLengths(n))
  {
    TreeSizeIsSumOfFiles(n);
    WrapInt64(TreeSize(n))
  }

  // ---------------------------------------------------------------------
  // Storage arithmetic
  // ---------------------------------------------------------------------

  const BYTES_PER_RECORDING_MINUTE: int := 100 * 1024 * 1024
  const DEFAULT_REQUIRED_MINUTES: Int32 := 30
  const DEFAULT_AVG_TRIP_BYTES: Int64 := 3 * 1024 * 1024 * 1024

  /** `getAvailableStorageBytes`: blocks times block size; 0 without a
      storage directory. */
  function AvailableStorageBytes(hasDir: bool, availableBlocks: Int64, blockSize: Int64): (r: Int64)
    ensures !hasDir ==> r == 0
    ensures hasDir && -0x8000_0000_0000_0000 <= availableBlocks * blockSize < 0x8000_0000_0000_0000 ==>
      r == availableBlocks * blockSize
  {
    if !hasDir then 0 else WrapInt64(availableBlocks * blockSize)
  }

  /** `getAvailableStoragePercentage`: the available share of the volume in
      whole percent, rounded down; 0 without a storage directory or for an
      empty volume. The source divides as `Double`s; this is the exact
      quotient, saturated to `Int` as `Double.toInt()` does. */
  function AvailableStoragePercentage(hasDir: bool, availableBytes: Int64, totalBytes: Int64): (r: Int32)
    ensures !hasDir || totalBytes == 0 ==> r == 0
    ensures hasDir && 0 <= availableBytes <= totalBytes && 0 < totalBytes ==>
      && 0 <= r <= 100
      && r as int * totalBytes <= 100 * availableBytes < (r as int + 1) * totalBytes
  {
    if !hasDir || totalBytes == 0 then 0
    else
      var q := Quot(100 * availableBytes, totalBytes);
      PercentBounds(availableBytes, totalBytes);
      if q < -0x8000_0000 then -0x8000_0000 else if q >= 0x8000_0000 then 0x7fff_ffff else q
  }

  lemma PercentBounds(a: int, t: int)
    requires t != 0
    ensures 0 <= a <= t && 0 < t ==>
      var q := Quot(100 * a, t);
      0 <= q <= 100 && q * t <= 100 * a < (q + 1) * t
  {
    if 0 <= a <= t && 0 < t {
      QuotRemNonNegative(100 * a, t);
      DivBounds(100 * a, t);
      var q := (100 * a) / t;
      assert q * t <= 100 * t;
      MulCancel(q, 100, t);
    }
  }

  /** `requiredMinutes * 100L * 1024L * 1024L`, which cannot overflow a
      `Long` for any `Int` number of minutes. */
  function RequiredBytes(requiredMinutes: Int32): (r: Int64)
    ensures r == requiredMinutes as int * BYTES_PER_RECORDING_MINUTE
  {
    WrapInt64(requiredMinutes as int * BYTES_PER_RECORDING_MINUTE)
  }

  /** `hasEnoughStorageForRecording`. */
  predicate HasEnoughStorageForRecording(availableBytes: Int64, requiredMinutes: Int32) {
    availableBytes >= RequiredBytes(requiredMinutes)
  }

  /** The default asks for 30 minutes, i.e. 3000 MiB. */
  lemma DefaultRecordingNeed(availableBytes: Int64)
    ensures HasEnoughStorageForRecording(availableBytes, DEFAULT_REQUIRED_MINUTES)
        <==> availableBytes >= 3000 * 1024 * 1024
  {
  }

  /** `getEstimatedTripsRemaining`: the `Long` quotient narrowed to `Int`;
      a zero trip size throws. */
  function EstimatedTripsRemaining(availableBytes: Int64, avgTripSizeBytes: Int64): (r: Option<Int32>)
    ensures r.None? <==> avgTripSizeBytes == 0
    ensures r.Some? && 0 <= availableBytes && 0 < avgTripSizeBytes && availableBytes / avgTripSizeBytes < 0x8000_0000 ==>
      r.value as int * avgTripSizeBytes <= availableBytes < (r.value as int + 1) * avgTripSizeBytes
  {
    if avgTripSizeBytes == 0 then None
    else
      QuotientOfNonNegatives(availableBytes, avgTripSizeBytes);
      Some(WrapInt32(WrapInt64(Quot(availableBytes, avgTripSizeBytes))))
  }

  lemma QuotientOfNonNegatives(a: Int64, b: Int64)
    requires b != 0
    ensures 0 <= a && 0 < b ==> 0 <= Quot(a, b) == a / b && (a / b) * b <= a < (a / b) * b + b
  {
    if 0 <= a && 0 < b {
      QuotRemNonNegative(a as int, b as int);
      DivBounds(a as int, b as int);
    }
  }
}
