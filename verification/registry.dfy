/**
 * getFeedList: the list of upstream GTFS Realtime feeds the worker serves,
 * built from the environment. Either GTFS_RT_FEEDS holds a JSON array of
 * feed records, or, when it is empty, GTFS_RT_URL names a single feed.
 *
 * JSON.parse is not part of this model: the parser is a parameter, and what
 * it makes of the text is a ParsedConfig. A record's properties are the
 * string-valued JSON properties it has (None when the property is missing).
 */
module Registry {
  import opened Results
  import opened Strings

  /** The worker's environment bindings; an unset variable reads as "" (every use goes through `|| ""`). */
  datatype Env = Env(
    feeds: string,        // GTFS_RT_FEEDS
    url: string,          // GTFS_RT_URL
    apiKey: string,       // GTFS_API_KEY
    authQuery: string,    // GTFS_RT_AUTH_QUERY
    authHeader: string)   // GTFS_RT_AUTH_HEADER

  /** One element of the configured array: something that is not an object (or is null), or an object. */
  datatype ConfigItem =
    | NotAnObject
    | Entry(
        id: Option<string>,
        title: Option<string>,     // the "label" property
        url: Option<string>,
        icon: Option<string>,
        facing: Option<string>,
        authHeader: Option<string>,
        authQuery: Option<string>)

  /** What JSON.parse makes of the trimmed GTFS_RT_FEEDS. */
  datatype ParsedConfig = NotJson | NotAnArray | JsonArray(items: seq<ConfigItem>)

  /** A feed descriptor; `authHeader` and `authQuery` are None where the record leaves them undefined. */
  datatype Feed = Feed(
    id: string,
    title: string,    // label
    url: string,
    icon: string,
    facing: string,
    authHeader: Option<string>,
    authQuery: Option<string>)

  /** MAX_FEEDS. */
  const MaxFeeds: nat := 20

  const NoFeedsConfigured := "GTFS_RT_URL is not set and GTFS_RT_FEEDS is empty"
  const InvalidJson := "GTFS_RT_FEEDS must be valid JSON (array of {id,label,url,icon,facing})"
  const NotJsonArray := "GTFS_RT_FEEDS must be a JSON array"
  const NoValidEntries := "GTFS_RT_FEEDS parsed but contained no valid {id,url} entries"

  /** `String(item.p || "")` for a property that is a string or is missing. */
  function Text(p: Option<string>): string {
    match p
    case None => ""
    case Some(s) => s
  }

  /** The single feed of the back-compatible configuration by GTFS_RT_URL alone. */
  function DefaultFeed(url: string): Feed {
    Feed("default", "Default", url, "/emoji/bus.png", "left", None, None)
  }

  /** The descriptor one configured item yields, if it has an id and a url. */
  function FeedOfItem(item: ConfigItem): Option<Feed> {
    match item
    case NotAnObject => None
    case Entry(_, _, _, _, _, _, _) =>
      var id := Trim(Text(item.id));
      var url := Trim(Text(item.url));
      if id == [] || url == [] then None
      else
        var title := Trim(OrElse(Text(item.title), id));
        var icon := Trim(Text(item.icon));
        var facing := Trim(OrElse(Text(item.facing), "left"));
        Some(Feed(Sanitize(id), title, url, icon, facing, item.authHeader, item.authQuery))
  }

  /** An item is kept exactly when it is an object whose trimmed id and url are not empty. */
  lemma FeedOfItemKept(item: ConfigItem)
    ensures FeedOfItem(item).Some? <==> item.Entry? && !AllSpace(Text(item.id)) && !AllSpace(Text(item.url))
  {
  }

  /**
   * A kept item's descriptor: the id trimmed and then stripped of every
   * character outside `[A-Za-z0-9_-]`, the url trimmed (and not empty), the
   * label trimmed and falling back to the trimmed id, the icon trimmed, the
   * facing trimmed and falling back to `left`; the credentials carried over
   * as given.
   */
  lemma FeedOfItemFields(item: ConfigItem)
    ensures FeedOfItem(item).Some? ==>
      var f := FeedOfItem(item).value;
      && item.Entry?
      && f.id == Sanitize(Trim(Text(item.id))) && IsIdentifier(f.id)
      && f.url == Trim(Text(item.url)) && f.url != [] && Trim(f.url) == f.url
      && (Text(item.title) != [] ==> f.title == Trim(Text(item.title)))
      && (Text(item.title) == [] ==> f.title == Trim(Text(item.id)))
      && f.icon == Trim(Text(item.icon))
      && (Text(item.facing) != [] ==> f.facing == Trim(Text(item.facing)))
      && (Text(item.facing) == [] ==> f.facing == "left")
      && f.authHeader == item.authHeader && f.authQuery == item.authQuery
  {
    TrimLeft();
    hide FeedOfItem, Trim, TrimStart, TrimEnd, IsSpace, Sanitize, IsIdChar, AllSpace, OrElse;
    if FeedOfItem(item).Some? {
      FeedOfItemValue(item);
      TrimIdempotent(Text(item.url));
      TrimIdempotent(Text(item.id));
      TrimDefault(Text(item.title), Trim(Text(item.id)));
      TrimDefault(Text(item.facing), "left");
    }
  }

  lemma TrimLeft()
    ensures Trim("left") == "left"
  {
    TrimUnchanged("left");
  }

  /** `(x || d).trim()`: the trimmed `x`, or the default when `x` is empty and the default is its own trim. */
  lemma TrimDefault(x: string, d: string)
    requires Trim(d) == d
    ensures x != [] ==> Trim(OrElse(x, d)) == Trim(x)
    ensures x == [] ==> Trim(OrElse(x, d)) == d
  {
  }

  /** The descriptor of a kept item, as FeedOfItem assembles it. */
  lemma FeedOfItemValue(item: ConfigItem)
    requires FeedOfItem(item).Some?
    ensures item.Entry?
    ensures var id, url := Trim(Text(item.id)), Trim(Text(item.url));
      && url != []
      && FeedOfItem(item).value == Feed(Sanitize(id), Trim(OrElse(Text(item.title), id)), url,
           Trim(Text(item.icon)), Trim(OrElse(Text(item.facing), "left")), item.authHeader, item.authQuery)
  {
    hide Trim, Sanitize;
  }

  /** The descriptors of the usable items, in configuration order. */
  function KeptFeeds(items: seq<ConfigItem>): seq<Feed> {
    if items == [] then []
    else
      var last := items[|items| - 1];
      KeptFeeds(items[..|items| - 1]) + (if FeedOfItem(last).Some? then [FeedOfItem(last).value] else [])
  }

  /** `out.slice(0, MAX_FEEDS)`. */
  function FirstFeeds(out: seq<Feed>): seq<Feed> {
    if |out| <= MaxFeeds then out else out[..MaxFeeds]
  }

  /** What getFeedList returns or throws, given the JSON parser. */
  function FeedList(env: Env, parse: string -> ParsedConfig): Result<seq<Feed>, string> {
    var raw := Trim(env.feeds);
    if raw == [] then
      var url := Trim(env.url);
      if url == [] then Err(NoFeedsConfigured) else Ok([DefaultFeed(url)])
    else
      match parse(raw)
      case NotJson => Err(InvalidJson)
      case NotAnArray => Err(NotJsonArray)
      case JsonArray(items) =>
        var out := KeptFeeds(items);
        if out == [] then Err(NoValidEntries) else Ok(FirstFeeds(out))
  }

  /** getFeedList: the `for` loop pushes each usable item's descriptor onto `out`. */
  method GetFeedList(env: Env, parse: string -> ParsedConfig) returns (r: Result<seq<Feed>, string>)
    ensures r == FeedList(env, parse)
  {
    hide FeedOfItem, TrimStart, TrimEnd, IsSpace, AllSpace;
    var raw := Trim(env.feeds);
    if raw == [] {
      var url := Trim(env.url);
      if url == [] {
        return Err(NoFeedsConfigured);
      }
      return Ok([DefaultFeed(url)]);
    }
    var parsed := parse(raw);
    if parsed.NotJson? {
      return Err(InvalidJson);
    } else if parsed.NotAnArray? {
      return Err(NotJsonArray);
    }
    var items := parsed.items;
    var out: seq<Feed> := [];
    for i := 0 to |items|
      invariant out == KeptFeeds(items[..i])
    {
      assert items[..i + 1][..i] == items[..i];
      var feed := FeedOfItem(items[i]);
      if feed.Some? {
        out := out + [feed.value];
      }
    }
    assert items[..|items|] == items;
    if |out| == 0 {
      return Err(NoValidEntries);
    }
    return Ok(FirstFeeds(out));
  }

  // ---------------------------------------------------------------------------
  // What getFeedList promises

  /** With GTFS_RT_FEEDS empty, the one feed `default` at GTFS_RT_URL, or an error when that is empty too. */
  lemma LegacyFeed(env: Env, parse: string -> ParsedConfig)
    requires AllSpace(env.feeds)
    ensures AllSpace(env.url) ==> FeedList(env, parse) == Err(NoFeedsConfigured)
    ensures !AllSpace(env.url) ==> FeedList(env, parse) == Ok([Feed("default", "Default", Trim(env.url), "/emoji/bus.png", "left", None, None)])
  {
  }

  /** KeptFeeds works item by item: the descriptors of a longer list extend those of its prefix, in order. */
  lemma {:induction false} KeptFeedsAppend(a: seq<ConfigItem>, b: seq<ConfigItem>)
    ensures KeptFeeds(a + b) == KeptFeeds(a) + KeptFeeds(b)
    decreases |b|
  {
    hide FeedOfItem;
    if b == [] {
      assert a + b == a;
    } else {
      var b' := b[..|b| - 1];
      assert (a + b)[..|a + b| - 1] == a + b';
      assert (a + b)[|a + b| - 1] == b[|b| - 1];
      KeptFeedsAppend(a, b');
    }
  }

  /** An item is kept exactly when it has an id and a url; at most one descriptor per item. */
  lemma {:induction false} KeptFeedsCount(items: seq<ConfigItem>)
    ensures |KeptFeeds(items)| <= |items|
    ensures KeptFeeds(items) == [] <==> forall k :: 0 <= k < |items| ==> FeedOfItem(items[k]).None?
    ensures forall f :: f in KeptFeeds(items) ==> exists k :: 0 <= k < |items| && FeedOfItem(items[k]) == Some(f)
  {
    hide FeedOfItem;
    if items != [] {
      var init := items[..|items| - 1];
      KeptFeedsCount(init);
      forall k | 0 <= k < |init| ensures init[k] == items[k] { }
    }
  }

  /**
   * Ids are not made unique: two items whose ids differ only in characters
   * the sanitiser drops (`a!` and `a?`) are both kept, as two different
   * feeds sharing the id `a`.
   */
  lemma SanitizedIdsCollide()
    ensures var a := Entry(Some("a!"), None, Some("u"), None, None, None, None);
      var b := Entry(Some("a?"), None, Some("u"), None, None, None, None);
      && FeedOfItem(a).Some? && FeedOfItem(b).Some?
      && FeedOfItem(a).value.id == "a" && FeedOfItem(b).value.id == "a"
      && FeedOfItem(a).value != FeedOfItem(b).value
      && KeptFeeds([a, b]) == [FeedOfItem(a).value, FeedOfItem(b).value]
  {
    var a := Entry(Some("a!"), None, Some("u"), None, None, None, None);
    var b := Entry(Some("a?"), None, Some("u"), None, None, None, None);
    SanitizeBang();
    TrimBang();
    TrimU();
    hide FeedOfItem, Trim, TrimStart, TrimEnd, IsSpace, Sanitize, IsIdChar, AllSpace, OrElse;
    KeptWhenTrimmed(a);
    KeptWhenTrimmed(b);
    FeedOfItemFields(a);
    FeedOfItemFields(b);
    assert FeedOfItem(a).value.title == "a!" && FeedOfItem(b).value.title == "a?";
    assert "a!"[1] != "a?"[1];
    assert KeptFeeds([a]) == [FeedOfItem(a).value];
    assert [a, b][..1] == [a] && [a][..0] == [];
  }

  /** An object item whose trimmed id and url are not empty is kept. */
  lemma KeptWhenTrimmed(item: ConfigItem)
    requires item.Entry? && Trim(Text(item.id)) != [] && Trim(Text(item.url)) != []
    ensures FeedOfItem(item).Some?
  {
    hide Trim, Sanitize;
  }

  lemma TrimBang()
    ensures Trim("a!") == "a!" && Trim("a?") == "a?"
  {
    TrimUnchanged("a!");
    TrimUnchanged("a?");
  }

  lemma TrimU()
    ensures Trim("u") == "u"
  {
    TrimUnchanged("u");
  }

  lemma SanitizeBang()
    ensures Sanitize("a!") == "a" && Sanitize("a?") == "a"
  {
    assert "a!"[1..] == "!" && "!"[1..] == [];
    assert "a?"[1..] == "?" && "?"[1..] == [];
  }

  /** A successful configuration by JSON yields between one and MAX_FEEDS descriptors: the first of the kept ones. */
  lemma FeedListFromJson(env: Env, parse: string -> ParsedConfig)
    requires !AllSpace(env.feeds) && parse(Trim(env.feeds)).JsonArray?
    ensures var kept := KeptFeeds(parse(Trim(env.feeds)).items);
      match FeedList(env, parse)
      case Err(e) => e == NoValidEntries && kept == []
      case Ok(fs) =>
        && 1 <= |fs| <= MaxFeeds
        && |fs| == (if |kept| < MaxFeeds then |kept| else MaxFeeds)
        && fs == kept[..|fs|]
  {
    hide FeedOfItem, KeptFeeds, TrimStart, TrimEnd, IsSpace, AllSpace;
  }

  /** Every descriptor in a successful list has an id made only of `[A-Za-z0-9_-]` (perhaps empty) and a url. */
  lemma FeedListWellFormed(env: Env, parse: string -> ParsedConfig)
    ensures FeedList(env, parse).Ok? ==> forall f :: f in FeedList(env, parse).value ==> IsIdentifier(f.id) && f.url != []
  {
    hide FeedOfItem, IsSpace, TrimStart, TrimEnd;
    var raw := Trim(env.feeds);
    if FeedList(env, parse).Ok? {
      if raw == [] {
        assert IsIdentifier("default");
      } else {
        var items := parse(raw).items;
        var kept := KeptFeeds(items);
        assert FeedList(env, parse).value == FirstFeeds(kept);
        KeptFeedsCount(items);
        forall f | f in FirstFeeds(kept) ensures IsIdentifier(f.id) && f.url != [] {
          assert f in kept;
          var k :| 0 <= k < |items| && FeedOfItem(items[k]) == Some(f);
          FeedOfItemFields(items[k]);
        }
      }
    }
  }
}
