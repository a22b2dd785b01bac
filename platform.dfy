/**
 * Platform detection from the routing history (src/shared/src/utils/platform/platform.ts).
 *
 * The routing history is a sequence of visited locations, read in index order. The
 * classifier walks it to decide whether the user arrived from a given platform, and compares
 * the first visits of an external platform's route and of the home route.
 * The home route (`routes.index` in the source) and the platform's display name are
 * parameters of the model.
 */
module Platform {
  import opened Wrappers

  /** One routing-history record; only `pathname` takes part in the classification. */
  datatype HistoryItem = HistoryItem(action: string, hash: string, key: string, pathname: string, search: string)

  /** A history record that differs from another only by its path. */
  function Visit(pathname: string): (item: HistoryItem)
    ensures item.pathname == pathname
  {
    HistoryItem("PUSH", "", "", pathname, "")
  }

  /**
   * The three values the source's parent-path helper can produce: `false` for an absolute
   * URL, `undefined` when the path has no '/', and otherwise the segment after the first '/'.
   * Datatype equality here is exactly the source's `===` on those values.
   */
  datatype ParentPath = AbsoluteUrl | NoSegment | Segment(name: string)

  /** The test `/^http/`: the path starts with the four characters "http". */
  predicate IsAbsoluteUrl(pathname: string)
  {
    |pathname| >= 4 && pathname[..4] == "http"
  }

  /** Index of the first '/' in `s`, if there is one. */
  function FirstSlash(s: string): (r: Option<nat>)
    ensures r.Some? ==> r.value < |s| && s[r.value] == '/' && '/' !in s[..r.value]
    ensures r.None? ==> '/' !in s
  {
    if |s| == 0 then None
    else if s[0] == '/' then Some(0)
    else
      match FirstSlash(s[1..])
      case None => None
      case Some(i) =>
        assert s[..i + 1] == [s[0]] + s[1..][..i];
        Some(i + 1)
  }

  /** The longest prefix of `s` that holds no '/': one piece of `split('/')`. */
  function TakeSegment(s: string): (r: string)
    ensures |r| <= |s| && r == s[..|r|]
    ensures '/' !in r
    ensures |r| == |s| || s[|r|] == '/'
  {
    if |s| == 0 || s[0] == '/' then "" else [s[0]] + TakeSegment(s[1..])
  }

  /** `getParentPath`: what `pathname.split('/')[1]` yields, unless the path is an absolute URL. */
  function ParentPathOf(pathname: string): (p: ParentPath)
    ensures p.AbsoluteUrl? <==> IsAbsoluteUrl(pathname)
    ensures p.NoSegment? <==> !IsAbsoluteUrl(pathname) && '/' !in pathname
  {
    if IsAbsoluteUrl(pathname) then AbsoluteUrl
    else
      match FirstSlash(pathname)
      case None => NoSegment
      case Some(i) => Segment(TakeSegment(pathname[i + 1..]))
  }

  /** A parent segment is the whole piece between the first '/' and the next '/' (or the end). */
  lemma SegmentFollowsFirstSlash(pathname: string)
    requires ParentPathOf(pathname).Segment?
    ensures var seg := ParentPathOf(pathname).name;
      '/' !in seg &&
      exists i :: 0 <= i < |pathname| && pathname[i] == '/' && '/' !in pathname[..i] &&
        i + 1 + |seg| <= |pathname| && pathname[i + 1..i + 1 + |seg|] == seg &&
        (i + 1 + |seg| == |pathname| || pathname[i + 1 + |seg|] == '/')
  {
    var i := FirstSlash(pathname).value;
    var seg := TakeSegment(pathname[i + 1..]);
    assert pathname[i + 1..i + 1 + |seg|] == seg;
  }

  lemma {:induction false} TakeSegmentOf(seg: string, rest: string)
    requires '/' !in seg
    requires rest == [] || rest[0] == '/'
    ensures TakeSegment(seg + rest) == seg
  {
    if seg != [] {
      assert (seg + rest)[1..] == seg[1..] + rest;
      TakeSegmentOf(seg[1..], rest);
    }
  }

  /** A relative path "/seg/..." has parent segment `seg`: the inverse of splitting on '/'. */
  lemma {:induction false} ParentPathOfRelative(seg: string, rest: string)
    requires '/' !in seg
    requires rest == [] || rest[0] == '/'
    ensures ParentPathOf("/" + seg + rest) == Segment(seg)
  {
    var p := "/" + seg + rest;
    assert p[0] == '/';
    assert !IsAbsoluteUrl(p) by { if |p| >= 4 { assert p[..4][0] == '/'; } }
    assert FirstSlash(p) == Some(0);
    assert p[1..] == seg + rest;
    TakeSegmentOf(seg, rest);
  }

  /** The loop's success test for one record. */
  predicate Matches(item: HistoryItem, platformRoute: string, shouldIgnoreParentPath: bool)
  {
    ParentPathOf(item.pathname) == ParentPathOf(platformRoute) ||
    (shouldIgnoreParentPath && item.pathname == platformRoute)
  }

  /**
   * Record k ends the walk: its parent segment differs from the next record's, and it is one
   * of the known platform parent segments (only the home route's).
   */
  predicate StopsWalk(history: seq<HistoryItem>, k: nat, home: string)
    requires k + 1 < |history|
  {
    ParentPathOf(history[k].pathname) != ParentPathOf(history[k + 1].pathname) &&
    ParentPathOf(history[k].pathname) in [ParentPathOf(home)]
  }

  /**
   * What `isNavigationFromPlatform` decides, stated without the loop: some record matches the
   * platform route and no record before it ends the walk.
   */
  predicate NavigatedFromPlatform(history: seq<HistoryItem>, platformRoute: string, home: string, shouldIgnoreParentPath: bool)
  {
    exists j :: 0 <= j < |history| && Matches(history[j], platformRoute, shouldIgnoreParentPath) &&
      forall k :: 0 <= k < j ==> !StopsWalk(history, k, home)
  }

  /** `isNavigationFromPlatform`: the index walk with its early returns, `continue` and `break`. */
  method IsNavigationFromPlatform(history: seq<HistoryItem>, platformRoute: string, home: string, shouldIgnoreParentPath: bool := false)
    returns (r: bool)
    ensures r == NavigatedFromPlatform(history, platformRoute, home, shouldIgnoreParentPath)
  {
    if |history| > 0 {
      var i := 0;
      while i < |history|
        invariant 0 <= i <= |history|
        invariant forall k :: 0 <= k < i ==> !Matches(history[k], platformRoute, shouldIgnoreParentPath)
        invariant forall k :: 0 <= k < i && k + 1 < |history| ==> !StopsWalk(history, k, home)
      {
        var itemParentPath := ParentPathOf(history[i].pathname);
        if itemParentPath == ParentPathOf(platformRoute) || (shouldIgnoreParentPath && history[i].pathname == platformRoute) {
          assert Matches(history[i], platformRoute, shouldIgnoreParentPath);
          return true;
        } else if !(|history| > i + 1) {
          return false;
        } else if itemParentPath == ParentPathOf(history[i + 1].pathname) {
          i := i + 1;
          continue;
        } else {
          var platformParentPaths := [ParentPathOf(home)];
          if itemParentPath in platformParentPaths {
            assert StopsWalk(history, i, home);
            break;
          }
        }
        i := i + 1;
      }
    }
    return false;
  }

  /** `getActivePlatform`: the empty name when arriving from the home platform root '/'. */
  method GetActivePlatform(history: seq<HistoryItem>, home: string, dtraderName: string) returns (name: string)
    ensures NavigatedFromPlatform(history, "/", home, false) ==> name == ""
    ensures !NavigatedFromPlatform(history, "/", home, false) ==> name == dtraderName
  {
    var fromRoot := IsNavigationFromPlatform(history, "/", home);
    if fromRoot {
      name := "";
    } else {
      name := dtraderName;
    }
  }

  /** `Array.prototype.findIndex` on pathnames: the first index holding `pathname`, or -1. */
  function FindIndex(history: seq<HistoryItem>, pathname: string): (r: int)
    ensures -1 <= r < |history|
    ensures r == -1 <==> forall k :: 0 <= k < |history| ==> history[k].pathname != pathname
    ensures r >= 0 ==> history[r].pathname == pathname && forall k :: 0 <= k < r ==> history[k].pathname != pathname
  {
    if |history| == 0 then -1
    else if history[0].pathname == pathname then 0
    else
      var i := FindIndex(history[1..], pathname);
      if i == -1 then -1 else i + 1
  }

  /**
   * `isNavigationFromExternalPlatform`: the platform route was visited, and the home route was
   * not visited at or before its first visit.
   */
  function IsNavigationFromExternalPlatform(history: seq<HistoryItem>, platformRoute: string, home: string): (r: bool)
    ensures r <==> exists j :: 0 <= j < |history| && history[j].pathname == platformRoute &&
                    forall k :: 0 <= k <= j ==> history[k].pathname != home
  {
    var platformIndex := FindIndex(history, platformRoute);
    var dtraderIndex := FindIndex(history, home);
    var hasVisitedPlatform := platformIndex != -1;
    var hasVisitedDtrader := dtraderIndex != -1;
    if hasVisitedPlatform then
      assert history[platformIndex].pathname == platformRoute;
      if hasVisitedDtrader then platformIndex < dtraderIndex else true
    else false
  }

  // Properties of the walk.

  lemma EmptyHistoryNotFromPlatform(platformRoute: string, home: string, shouldIgnoreParentPath: bool)
    ensures !NavigatedFromPlatform([], platformRoute, home, shouldIgnoreParentPath)
  {
  }

  /** A first record in the platform's segment is decisive, whatever follows. */
  lemma FirstEntryInPlatform(history: seq<HistoryItem>, platformRoute: string, home: string, shouldIgnoreParentPath: bool)
    requires |history| > 0 && ParentPathOf(history[0].pathname) == ParentPathOf(platformRoute)
    ensures NavigatedFromPlatform(history, platformRoute, home, shouldIgnoreParentPath)
  {
    assert Matches(history[0], platformRoute, shouldIgnoreParentPath);
  }

  /** A positive answer is always backed by a record in the platform's segment, or an exact path. */
  lemma FromPlatformIsSound(history: seq<HistoryItem>, platformRoute: string, home: string, shouldIgnoreParentPath: bool)
    requires NavigatedFromPlatform(history, platformRoute, home, shouldIgnoreParentPath)
    ensures exists j :: 0 <= j < |history| && (ParentPathOf(history[j].pathname) == ParentPathOf(platformRoute) || (shouldIgnoreParentPath && history[j].pathname == platformRoute))
  {
  }

  lemma SingleEntryHistory(item: HistoryItem, platformRoute: string, home: string, shouldIgnoreParentPath: bool)
    ensures NavigatedFromPlatform([item], platformRoute, home, shouldIgnoreParentPath) <==>
            Matches(item, platformRoute, shouldIgnoreParentPath)
  {
    if Matches(item, platformRoute, shouldIgnoreParentPath) {
      assert [item][0] == item;
    }
  }

  /** The walk ends with `false` at a home-segment record that differs from its successor. */
  lemma WalkStopsAtHomeBoundary(history: seq<HistoryItem>, platformRoute: string, home: string, shouldIgnoreParentPath: bool, k: nat)
    requires k + 1 < |history|
    requires forall j :: 0 <= j <= k ==> !Matches(history[j], platformRoute, shouldIgnoreParentPath)
    requires StopsWalk(history, k, home)
    ensures !NavigatedFromPlatform(history, platformRoute, home, shouldIgnoreParentPath)
  {
  }

  /** A match in the tail, with no stop before it, is a match in the whole log once the first record does not stop. */
  lemma ShiftWitnessBack(history: seq<HistoryItem>, platformRoute: string, home: string, shouldIgnoreParentPath: bool)
    requires |history| >= 2 && !StopsWalk(history, 0, home)
    requires NavigatedFromPlatform(history[1..], platformRoute, home, shouldIgnoreParentPath)
    ensures NavigatedFromPlatform(history, platformRoute, home, shouldIgnoreParentPath)
  {
    var tail := history[1..];
    var j :| 0 <= j < |tail| && Matches(tail[j], platformRoute, shouldIgnoreParentPath) &&
      forall k :: 0 <= k < j ==> !StopsWalk(tail, k, home);
    assert history[j + 1] == tail[j];
    forall k | 0 <= k < j + 1 ensures !StopsWalk(history, k, home) {
      if k > 0 {
        assert !StopsWalk(tail, k - 1, home);
        assert tail[k - 1] == history[k] && tail[k] == history[k + 1];
      }
    }
  }

  /** A match in the whole log that is not the first record is a match in the tail. */
  lemma ShiftWitnessForward(history: seq<HistoryItem>, platformRoute: string, home: string, shouldIgnoreParentPath: bool)
    requires |history| >= 2 && !Matches(history[0], platformRoute, shouldIgnoreParentPath)
    requires NavigatedFromPlatform(history, platformRoute, home, shouldIgnoreParentPath)
    ensures NavigatedFromPlatform(history[1..], platformRoute, home, shouldIgnoreParentPath)
  {
    var tail := history[1..];
    var j :| 0 <= j < |history| && Matches(history[j], platformRoute, shouldIgnoreParentPath) &&
      forall k :: 0 <= k < j ==> !StopsWalk(history, k, home);
    assert j >= 1 && tail[j - 1] == history[j];
    forall k | 0 <= k < j - 1 ensures !StopsWalk(tail, k, home) {
      assert !StopsWalk(history, k + 1, home);
      assert tail[k] == history[k + 1] && tail[k + 1] == history[k + 2];
    }
  }

  /**
   * One step of the walk: a first record that does not match and does not end the walk
   * (its segment is shared with the next record, or is not the home segment) is skipped.
   */
  lemma WalkSkipsFirstEntry(history: seq<HistoryItem>, platformRoute: string, home: string, shouldIgnoreParentPath: bool)
    requires |history| >= 2
    requires !Matches(history[0], platformRoute, shouldIgnoreParentPath)
    requires ParentPathOf(history[0].pathname) == ParentPathOf(history[1].pathname) ||
             ParentPathOf(history[0].pathname) != ParentPathOf(home)
    ensures NavigatedFromPlatform(history, platformRoute, home, shouldIgnoreParentPath) <==>
            NavigatedFromPlatform(history[1..], platformRoute, home, shouldIgnoreParentPath)
  {
    assert !StopsWalk(history, 0, home);
    if NavigatedFromPlatform(history, platformRoute, home, shouldIgnoreParentPath) {
      ShiftWitnessForward(history, platformRoute, home, shouldIgnoreParentPath);
    }
    if NavigatedFromPlatform(history[1..], platformRoute, home, shouldIgnoreParentPath) {
      ShiftWitnessBack(history, platformRoute, home, shouldIgnoreParentPath);
    }
  }

  // Properties of the external-platform check.

  lemma ExternalNeedsVisit(history: seq<HistoryItem>, platformRoute: string, home: string)
    requires forall k :: 0 <= k < |history| ==> history[k].pathname != platformRoute
    ensures !IsNavigationFromExternalPlatform(history, platformRoute, home)
  {
  }

  /** With the platform route visited, the answer compares first occurrences. */
  lemma ExternalComparesFirstVisits(history: seq<HistoryItem>, platformRoute: string, home: string)
    requires FindIndex(history, platformRoute) != -1
    ensures FindIndex(history, home) == -1 ==> IsNavigationFromExternalPlatform(history, platformRoute, home)
    ensures FindIndex(history, home) != -1 ==>
      (IsNavigationFromExternalPlatform(history, platformRoute, home) <==>
       FindIndex(history, platformRoute) < FindIndex(history, home))
  {
  }

  lemma ExternalNeverFromHome(history: seq<HistoryItem>, home: string)
    ensures !IsNavigationFromExternalPlatform(history, home, home)
  {
  }

  // Worked cases, with the home route "/".

  lemma ParentPathExamples()
    ensures ParentPathOf("/") == Segment("")
    ensures ParentPathOf("/reports") == Segment("reports")
  {
    ParentPathOfRelative("", "");
    assert "/" + "" + "" == "/";
    ParentPathOfRelative("reports", "");
    assert "/" + "reports" + "" == "/reports";
  }

  lemma AbsoluteUrlExample()
    ensures ParentPathOf("https://external.example/x") == AbsoluteUrl
  {
    assert "https://external.example/x"[..4] == "http";
  }

  lemma PlatformExamples(home: string)
    ensures !NavigatedFromPlatform([Visit("/reports")], "/", home, false)
    ensures NavigatedFromPlatform([Visit("/")], "/", home, false)
    ensures !NavigatedFromPlatform([Visit("https://external.example/x")], "/", home, false)
  {
    ParentPathExamples();
    AbsoluteUrlExample();
    assert Segment("reports") != Segment("") by { assert |"reports"| != |""|; }
    SingleEntryHistory(Visit("/reports"), "/", home, false);
    SingleEntryHistory(Visit("/"), "/", home, false);
    SingleEntryHistory(Visit("https://external.example/x"), "/", home, false);
  }

  /**
   * The code compares first indices in the order the log is stored: a log that holds the
   * external platform at index 0 and the home route at index 1 gives `true`.
   */
  lemma ExternalExamples()
    ensures IsNavigationFromExternalPlatform([Visit("/smarttrader"), Visit("/")], "/smarttrader", "/")
    ensures IsNavigationFromExternalPlatform([Visit("/smarttrader")], "/smarttrader", "/")
    ensures !IsNavigationFromExternalPlatform([Visit("/"), Visit("/smarttrader")], "/smarttrader", "/")
  {
    var h1 := [Visit("/smarttrader"), Visit("/")];
    assert h1[0].pathname == "/smarttrader" && "/smarttrader" != "/";
    var h3 := [Visit("/"), Visit("/smarttrader")];
    assert h3[0].pathname == "/" && h3[0].pathname != "/smarttrader";
  }
}
