/**
 * The /api/vehicles answer: the feed selector of the request, the choice of
 * feeds, the merge of what each feed yielded (fetchAndParseVehiclesMulti)
 * and the cap on the number of vehicles in the response.
 *
 * The feeds are fetched concurrently (Promise.allSettled over
 * fetchAndParseVehiclesFromFeed); here `fetch` gives the settled outcome of
 * one feed, so the outcomes are a given sequence in selection order.
 */
module Aggregate {
  import opened Results
  import opened Strings
  import opened Gtfs
  import opened Registry

  /** MAX_VEHICLES. */
  const MaxVehicles: nat := 50000

  // ---------------------------------------------------------------------------
  // The selector and the selection

  /** `(url.searchParams.get("feed") || "all").trim() || "all"`; an absent parameter is None. */
  function Selector(param: Option<string>): (r: string)
    ensures r != [] && Trim(r) == r
    ensures r == "all" <==> param.None? || AllSpace(param.value) || Trim(param.value) == "all"
    ensures r != "all" ==> r == Trim(param.value)
  {
    var given := if param.Some? then param.value else "";
    DefaultedTrim(given);
    OrElse(Trim(OrElse(given, "all")), "all")
  }

  /** `(given || "all").trim() || "all"`: `all` for a blank string, the trimmed string otherwise. */
  lemma DefaultedTrim(given: string)
    ensures var r := OrElse(Trim(OrElse(given, "all")), "all");
      && r != [] && Trim(r) == r
      && (r == "all" <==> AllSpace(given) || Trim(given) == "all")
      && (r != "all" ==> r == Trim(given))
  {
    TrimAll();
    TrimIdempotent(given);
    hide Trim, TrimStart, TrimEnd, IsSpace;
    if given == [] {
      assert OrElse(given, "all") == "all";
    }
  }

  lemma TrimAll()
    ensures Trim("all") == "all"
  {
    TrimUnchanged("all");
  }

  /** `feeds.filter((f) => f.id === id)`. */
  function WithId(feeds: seq<Feed>, id: string): (r: seq<Feed>)
    ensures |r| <= |feeds|
    ensures forall i :: 0 <= i < |r| ==> r[i].id == id
  {
    if feeds == [] then []
    else WithId(feeds[..|feeds| - 1], id) + (if feeds[|feeds| - 1].id == id then [feeds[|feeds| - 1]] else [])
  }

  /** The filter keeps exactly the feeds with that id: each of them, and nothing else. */
  lemma {:induction false} WithIdMembers(feeds: seq<Feed>, id: string)
    ensures forall f :: f in WithId(feeds, id) ==> f in feeds && f.id == id
    ensures forall k :: 0 <= k < |feeds| && feeds[k].id == id ==> feeds[k] in WithId(feeds, id)
    ensures WithId(feeds, id) == [] <==> forall k :: 0 <= k < |feeds| ==> feeds[k].id != id
    decreases |feeds|
  {
    if feeds != [] {
      var init, last := feeds[..|feeds| - 1], feeds[|feeds| - 1];
      WithIdMembers(init, id);
      assert feeds == init + [last];
      assert WithId(feeds, id) == WithId(init, id) + (if last.id == id then [last] else []);
    }
  }

  /** The filter works feed by feed, so the kept feeds are in configuration order, duplicates included. */
  lemma {:induction false} WithIdAppend(a: seq<Feed>, b: seq<Feed>, id: string)
    ensures WithId(a + b, id) == WithId(a, id) + WithId(b, id)
    decreases |b|
  {
    if b == [] {
      assert a + b == a;
    } else {
      var b', last := b[..|b| - 1], b[|b| - 1];
      var tail := if last.id == id then [last] else [];
      assert (a + b)[..|a + b| - 1] == a + b';
      assert (a + b)[|a + b| - 1] == last;
      assert WithId(a + b, id) == WithId(a + b', id) + tail;
      assert WithId(b, id) == WithId(b', id) + tail;
      hide WithId;
      WithIdAppend(a, b', id);
    }
  }

  function Ids(feeds: seq<Feed>): (r: seq<string>)
    ensures |r| == |feeds| && forall k :: 0 <= k < |feeds| ==> r[k] == feeds[k].id
  {
    seq(|feeds|, k requires 0 <= k < |feeds| => feeds[k].id)
  }

  function UnknownFeed(requested: string, feeds: seq<Feed>): string {
    "Unknown feed '" + requested + "'. Known: " + Join(Ids(feeds), ", ")
  }

  /** The feeds a selector picks: all of them for `all`, else those with that id, and an error if there are none. */
  function Select(feeds: seq<Feed>, requested: string): (r: Result<seq<Feed>, string>)
    ensures requested == "all" ==> r == Ok(feeds)
    ensures requested != "all" ==>
      && (r.Err? <==> forall k :: 0 <= k < |feeds| ==> feeds[k].id != requested)
      && (r.Err? ==> r.error == UnknownFeed(requested, feeds))
      && (r.Ok? ==> forall f :: f in r.value ==> f in feeds && f.id == requested)
      && (r.Ok? ==> forall k :: 0 <= k < |feeds| && feeds[k].id == requested ==> feeds[k] in r.value)
      && (r.Ok? ==> r.value == WithId(feeds, requested))
  {
    if requested == "all" then Ok(feeds)
    else
      WithIdMembers(feeds, requested);
      var selected := WithId(feeds, requested);
      if selected == [] then Err(UnknownFeed(requested, feeds)) else Ok(selected)
  }

  /** A feed whose sanitised id is empty is served only under `all`: no selector is empty. */
  lemma EmptyIdOnlyUnderAll(feeds: seq<Feed>, param: Option<string>, f: Feed)
    requires f in feeds && f.id == []
    requires Select(feeds, Selector(param)).Ok?
    ensures f in Select(feeds, Selector(param)).value <==> Selector(param) == "all"
  {
  }

  // ---------------------------------------------------------------------------
  // The merge

  /** Why a feed's promise was rejected: an Error object, a falsy value, or another value as String() renders it. */
  datatype Reason = ErrorObject(name: string, message: string) | Falsy | Other(text: string)

  /** What one feed's fetch settled to. */
  datatype Outcome = Fulfilled(vehicles: seq<Vehicle>) | Rejected(reason: Reason)

  /** A vehicle of the response: the decoded record under a feed-qualified id, with the feed's presentation. */
  datatype TaggedVehicle = TaggedVehicle(
    vehicle: Vehicle,
    id: string,
    feed: string,
    icon: string,
    facing: string,
    title: string)   // label

  /** One entry of `errors`. */
  datatype FeedError = FeedError(feed: string, icon: string, facing: string, title: string, error: string)

  /** One entry of `feeds`: note the label has no fallback here. */
  datatype FeedInfo = FeedInfo(id: string, title: string, icon: string, facing: string)

  /** `String(e)` of an Error: Error.prototype.toString, `name: message` with either part left out when empty. */
  function ErrorString(name: string, message: string): string {
    if name == [] then message else if message == [] then name else name + ": " + message
  }

  /** `String(r.reason?.message || r.reason || "unknown error")`. */
  function ReasonText(reason: Reason): (r: string)
    ensures reason.ErrorObject? && reason.message != [] ==> r == reason.message
    ensures reason.ErrorObject? && reason.message == [] ==> r == ErrorString(reason.name, reason.message)
    ensures reason.Other? ==> r == reason.text
    ensures reason.Falsy? ==> r == "unknown error"
  {
    match reason
    case ErrorObject(name, message) => OrElse(message, name)
    case Falsy => "unknown error"
    case Other(text) => text
  }

  function Tag(f: Feed, v: Vehicle): TaggedVehicle {
    TaggedVehicle(v, f.id + ":" + v.id, f.id, f.icon, OrElse(f.facing, "left"), OrElse(f.title, f.id))
  }

  function ErrorEntry(f: Feed, reason: Reason): FeedError {
    FeedError(f.id, f.icon, OrElse(f.facing, "left"), OrElse(f.title, f.id), ReasonText(reason))
  }

  function Info(f: Feed): FeedInfo {
    FeedInfo(f.id, f.title, f.icon, OrElse(f.facing, "left"))
  }

  /** What one feed adds to `vehicles`: its decoded vehicles, tagged, in decode order. */
  function VehiclesOf(f: Feed, o: Outcome): (r: seq<TaggedVehicle>)
    ensures o.Rejected? ==> r == []
    ensures o.Fulfilled? ==> |r| == |o.vehicles| && forall j :: 0 <= j < |r| ==> r[j] == Tag(f, o.vehicles[j])
  {
    match o
    case Fulfilled(vs) => seq(|vs|, j requires 0 <= j < |vs| => Tag(f, vs[j]))
    case Rejected(_) => []
  }

  /** What one feed adds to `errors`: one entry if it failed, none otherwise. */
  function ErrorsOf(f: Feed, o: Outcome): seq<FeedError> {
    match o
    case Fulfilled(_) => []
    case Rejected(reason) => [ErrorEntry(f, reason)]
  }

  /** The concatenation of a list of lists, in order. */
  function Concat<T>(parts: seq<seq<T>>): seq<T> {
    if parts == [] then [] else Concat(parts[..|parts| - 1]) + parts[|parts| - 1]
  }

  /** Where part `i` starts in the concatenation. */
  function Offset<T>(parts: seq<seq<T>>, i: nat): nat
    requires i <= |parts|
  {
    |Concat(parts[..i])|
  }

  lemma ConcatStep<T>(parts: seq<seq<T>>, i: nat)
    requires i < |parts|
    ensures Concat(parts[..i + 1]) == Concat(parts[..i]) + parts[i]
  {
    assert parts[..i + 1][..i] == parts[..i];
  }

  /** Part `i` lies, element by element, at its offset, and the parts follow one another without overlap. */
  lemma {:induction false} ConcatAt<T>(parts: seq<seq<T>>, i: nat, j: nat)
    requires i < |parts| && j < |parts[i]|
    ensures Offset(parts, i) + |parts[i]| <= Offset(parts, i + 1) <= |Concat(parts)|
    ensures Concat(parts)[Offset(parts, i) + j] == parts[i][j]
  {
    var n := |parts|;
    assert parts[..n] == parts;
    assert parts[..i + 1][..i] == parts[..i];
    if i + 1 < n {
      ConcatAt(parts[..n - 1], i, j);
      assert parts[..n - 1][..i] == parts[..i];
      assert parts[..n - 1][..i + 1] == parts[..i + 1];
      assert parts[..n - 1][i] == parts[i];
    }
  }

  /** Offsets only grow: what an earlier part contributes comes before what a later part contributes. */
  lemma {:induction false} OffsetMonotone<T>(parts: seq<seq<T>>, i: nat, i': nat)
    requires i <= i' <= |parts|
    ensures Offset(parts, i) <= Offset(parts, i')
    decreases i' - i
  {
    if i < i' {
      assert parts[..i'][..i' - 1] == parts[..i' - 1];
      OffsetMonotone(parts, i, i' - 1);
    }
  }

  function VehicleParts(selected: seq<Feed>, settled: seq<Outcome>): (r: seq<seq<TaggedVehicle>>)
    requires |settled| == |selected|
    ensures |r| == |selected| && forall i :: 0 <= i < |r| ==> r[i] == VehiclesOf(selected[i], settled[i])
  {
    seq(|selected|, i requires 0 <= i < |selected| => VehiclesOf(selected[i], settled[i]))
  }

  function ErrorParts(selected: seq<Feed>, settled: seq<Outcome>): (r: seq<seq<FeedError>>)
    requires |settled| == |selected|
    ensures |r| == |selected| && forall i :: 0 <= i < |r| ==> r[i] == ErrorsOf(selected[i], settled[i])
  {
    seq(|selected|, i requires 0 <= i < |selected| => ErrorsOf(selected[i], settled[i]))
  }

  /** The inner loop of the merge: `for (const v of r.value) vehicles.push(...)`. */
  method PushTagged(vehicles: seq<TaggedVehicle>, f: Feed, vs: seq<Vehicle>) returns (out: seq<TaggedVehicle>)
    ensures out == vehicles + VehiclesOf(f, Fulfilled(vs))
  {
    hide Tag;
    out := vehicles;
    for j := 0 to |vs|
      invariant out == vehicles + VehiclesOf(f, Fulfilled(vs[..j]))
    {
      assert VehiclesOf(f, Fulfilled(vs[..j + 1])) == VehiclesOf(f, Fulfilled(vs[..j])) + [Tag(f, vs[j])];
      out := out + [Tag(f, vs[j])];
    }
    assert vs[..|vs|] == vs;
  }

  /** The merge loop of fetchAndParseVehiclesMulti: for each feed in turn, its vehicles or its error are pushed. */
  method Merge(selected: seq<Feed>, settled: seq<Outcome>) returns (vehicles: seq<TaggedVehicle>, errors: seq<FeedError>)
    requires |settled| == |selected|
    ensures vehicles == Concat(VehicleParts(selected, settled))
    ensures errors == Concat(ErrorParts(selected, settled))
  {
    var vparts, eparts := VehicleParts(selected, settled), ErrorParts(selected, settled);
    vehicles, errors := [], [];
    assert vehicles == Concat(vparts[..0]) && errors == Concat(eparts[..0]);
    hide Concat, Tag, ErrorEntry, VehiclesOf;
    for i := 0 to |settled|
      invariant vehicles == Concat(vparts[..i]) && errors == Concat(eparts[..i])
    {
      ConcatStep(vparts, i);
      ConcatStep(eparts, i);
      var f, r := selected[i], settled[i];
      if r.Fulfilled? {
        vehicles := PushTagged(vehicles, f, r.vehicles);
      } else {
        errors := errors + [ErrorEntry(f, r.reason)];
      }
    }
    assert vparts[..|settled|] == vparts && eparts[..|settled|] == eparts;
  }

  // ---------------------------------------------------------------------------
  // What the merge promises

  /** The number of feeds that failed. */
  function Failures(settled: seq<Outcome>): nat {
    if settled == [] then 0
    else Failures(settled[..|settled| - 1]) + (if settled[|settled| - 1].Rejected? then 1 else 0)
  }

  /**
   * The j-th vehicle decoded from the i-th selected feed is in the response,
   * after those of the feeds before it, under the id `feedId:rawId` with
   * `feed` = the feed's id and the feed's presentation: its icon, its facing
   * or `left`, its label or its id.
   */
  lemma MergedVehicle(selected: seq<Feed>, settled: seq<Outcome>, i: nat, j: nat)
    requires |settled| == |selected| && i < |selected|
    requires settled[i].Fulfilled? && j < |settled[i].vehicles|
    ensures var vs := Concat(VehicleParts(selected, settled));
      var k := Offset(VehicleParts(selected, settled), i) + j;
      && k < |vs|
      && vs[k].vehicle == settled[i].vehicles[j]
      && vs[k].id == selected[i].id + ":" + settled[i].vehicles[j].id
      && vs[k].feed == selected[i].id
      && vs[k].icon == selected[i].icon
      && vs[k].facing == (if selected[i].facing != [] then selected[i].facing else "left")
      && vs[k].title == (if selected[i].title != [] then selected[i].title else selected[i].id)
  {
    ConcatAt(VehicleParts(selected, settled), i, j);
  }

  /** Each failed feed contributes exactly one `errors` entry, with its id, presentation and the text of its rejection, in selection order. */
  lemma {:induction false} OneErrorPerFailure(selected: seq<Feed>, settled: seq<Outcome>)
    requires |settled| == |selected|
    ensures |Concat(ErrorParts(selected, settled))| == Failures(settled)
    ensures forall i :: 0 <= i < |selected| && settled[i].Rejected? ==>
      var k := Offset(ErrorParts(selected, settled), i);
      && k < |Concat(ErrorParts(selected, settled))|
      && Concat(ErrorParts(selected, settled))[k].feed == selected[i].id
      && Concat(ErrorParts(selected, settled))[k].error == ReasonText(settled[i].reason)
      && Concat(ErrorParts(selected, settled))[k].icon == selected[i].icon
      && Concat(ErrorParts(selected, settled))[k].facing == (if selected[i].facing != [] then selected[i].facing else "left")
      && Concat(ErrorParts(selected, settled))[k].title == (if selected[i].title != [] then selected[i].title else selected[i].id)
    decreases |selected|
  {
    var parts := ErrorParts(selected, settled);
    forall i | 0 <= i < |selected| && settled[i].Rejected?
      ensures && Offset(parts, i) < |Concat(parts)|
        && Concat(parts)[Offset(parts, i)].feed == selected[i].id
        && Concat(parts)[Offset(parts, i)].error == ReasonText(settled[i].reason)
        && Concat(parts)[Offset(parts, i)].icon == selected[i].icon
        && Concat(parts)[Offset(parts, i)].facing == (if selected[i].facing != [] then selected[i].facing else "left")
        && Concat(parts)[Offset(parts, i)].title == (if selected[i].title != [] then selected[i].title else selected[i].id)
    {
      ConcatAt(parts, i, 0);
    }
    if selected != [] {
      var n := |selected|;
      OneErrorPerFailure(selected[..n - 1], settled[..n - 1]);
      assert parts[..n - 1] == ErrorParts(selected[..n - 1], settled[..n - 1]);
    }
  }

  /**
   * Since feed ids hold no colon, a response id names its feed id: vehicles of
   * feeds with different ids never share an id. Feeds that share an id (see
   * Registry.SanitizedIdsCollide) are not separated by the prefix.
   */
  lemma NoCrossFeedCollision(f1: Feed, v1: Vehicle, f2: Feed, v2: Vehicle)
    requires IsIdentifier(f1.id) && IsIdentifier(f2.id) && f1.id != f2.id
    ensures Tag(f1, v1).id != Tag(f2, v2).id
  {
    var a, b := Tag(f1, v1).id, Tag(f2, v2).id;
    if |f1.id| < |f2.id| {
      assert a[|f1.id|] == ':' != b[|f1.id|];
    } else if |f2.id| < |f1.id| {
      assert b[|f2.id|] == ':' != a[|f2.id|];
    } else {
      assert a[..|f1.id|] == f1.id != f2.id == b[..|f1.id|];
    }
  }

  // ---------------------------------------------------------------------------
  // fetchAndParseVehiclesMulti and the response

  /** What fetchAndParseVehiclesMulti resolves to. */
  datatype Merged = Merged(vehicles: seq<TaggedVehicle>, errors: seq<FeedError>, feedsUsed: seq<FeedInfo>)

  function Settle(selected: seq<Feed>, fetch: Feed -> Outcome): (r: seq<Outcome>)
    ensures |r| == |selected| && forall i :: 0 <= i < |r| ==> r[i] == fetch(selected[i])
  {
    seq(|selected|, i requires 0 <= i < |selected| => fetch(selected[i]))
  }

  /** fetchAndParseVehiclesMulti, given the settled outcome of each feed. */
  function MultiFeed(env: Env, parse: string -> ParsedConfig, requested: string, fetch: Feed -> Outcome): Result<Merged, string> {
    var feeds :- FeedList(env, parse);
    var selected :- Select(feeds, requested);
    var settled := Settle(selected, fetch);
    Ok(Merged(
      Concat(VehicleParts(selected, settled)),
      Concat(ErrorParts(selected, settled)),
      seq(|selected|, i requires 0 <= i < |selected| => Info(selected[i]))))
  }

  method FetchAndParseVehiclesMulti(env: Env, parse: string -> ParsedConfig, requested: string, fetch: Feed -> Outcome)
    returns (r: Result<Merged, string>)
    ensures r == MultiFeed(env, parse, requested, fetch)
  {
    hide FeedList, Trim, TrimStart, TrimEnd, IsSpace, AllSpace, FeedOfItem, KeptFeeds, Concat, UnknownFeed;
    var feeds :- GetFeedList(env, parse);
    var selected := feeds;
    if requested != "all" {
      selected := WithId(feeds, requested);
      if |selected| == 0 {
        return Err(UnknownFeed(requested, feeds));
      }
    }
    var settled := Settle(selected, fetch);
    var vehicles, errors := Merge(selected, settled);
    var feedsUsed := seq(|selected|, i requires 0 <= i < |selected| => Info(selected[i]));
    return Ok(Merged(vehicles, errors, feedsUsed));
  }

  /** An unknown selector fails the same way whatever the feeds would yield: it is refused before any fetch. */
  lemma UnknownFeedBeforeFetch(env: Env, parse: string -> ParsedConfig, requested: string, fetch1: Feed -> Outcome, fetch2: Feed -> Outcome)
    requires FeedList(env, parse).Ok? && Select(FeedList(env, parse).value, requested).Err?
    ensures MultiFeed(env, parse, requested, fetch1) == MultiFeed(env, parse, requested, fetch2)
    ensures MultiFeed(env, parse, requested, fetch1) == Err(UnknownFeed(requested, FeedList(env, parse).value))
  {
  }

  /** Only the selected feeds are fetched: outcomes of other feeds change nothing. */
  lemma OnlySelectedFetched(env: Env, parse: string -> ParsedConfig, requested: string, fetch1: Feed -> Outcome, fetch2: Feed -> Outcome)
    requires FeedList(env, parse).Ok? && Select(FeedList(env, parse).value, requested).Ok?
    requires forall f :: f in Select(FeedList(env, parse).value, requested).value ==> fetch1(f) == fetch2(f)
    ensures MultiFeed(env, parse, requested, fetch1) == MultiFeed(env, parse, requested, fetch2)
  {
    var selected := Select(FeedList(env, parse).value, requested).value;
    assert Settle(selected, fetch1) == Settle(selected, fetch2);
  }

  /** `feeds` of the response lists the selected feeds, in order, with the label as given and the icon and facing defaults. */
  lemma FeedsUsedMirrorSelection(env: Env, parse: string -> ParsedConfig, requested: string, fetch: Feed -> Outcome)
    requires MultiFeed(env, parse, requested, fetch).Ok?
    ensures var selected := Select(FeedList(env, parse).value, requested).value;
      var used := MultiFeed(env, parse, requested, fetch).value.feedsUsed;
      && |used| == |selected|
      && forall i :: 0 <= i < |used| ==>
        && used[i].id == selected[i].id
        && used[i].title == selected[i].title
        && used[i].icon == selected[i].icon
        && used[i].facing == (if selected[i].facing != [] then selected[i].facing else "left")
  {
    hide FeedList, Trim, TrimStart, TrimEnd, IsSpace, AllSpace, FeedOfItem, KeptFeeds, Concat, UnknownFeed;
  }

  /** `vehicles.slice(0, MAX_VEHICLES)` when there are more: the first min(n, 50000) vehicles. */
  function Clip(vehicles: seq<TaggedVehicle>): (r: seq<TaggedVehicle>)
    ensures |r| == if |vehicles| < MaxVehicles then |vehicles| else MaxVehicles
    ensures r == vehicles[..|r|]
  {
    if |vehicles| > MaxVehicles then vehicles[..MaxVehicles] else vehicles
  }
}
