# GTFS Realtime vehicle map worker — a Dafny model of its core

The worker (`src/worker.js`) serves `/api/vehicles`, a JSON list of the vehicles of one or more GTFS Realtime
VehiclePositions feeds. This project models its core:

- **The decoder.** A hand-written Protocol Buffers decoder turns a feed's bytes into vehicle records. It consists of:
  - `readVarint32`, `readVarint64`, `skipField` and `readString`;
  - the nested cursor loops `parseGtfsRtVehiclePositions` → `parseFeedEntity` → `parseVehiclePosition` →
    `parseTripDescriptor` / `parseVehicleDescriptorId` / `parsePosition`.
- **`getFeedList`.** It turns the environment into the list of feeds.
- **`buildUpstreamRequest`.** It builds the url and headers for one feed, with its three ways of passing the API key.
- **`fetchAndParseVehiclesMulti`.** It selects feeds, then merges their outcomes into `vehicles`, `errors` and `feeds`.
- **In the request handler:** the `feed` selector's default, and the cap of 50000 vehicles.

## How it is organised

| file | module | what it holds |
|---|---|---|
| `results.dfy` | `Results` | `Option`, and `Result` for a call that returns or throws |
| `bits.dfy` | `Bits` | bytes, powers of two, a bitwise or on naturals |
| `strings.dfy` | `Strings` | the JavaScript string operations used: `trim`, `\|\|` on strings, the id filter, `toLowerCase`, `startsWith`, `indexOf`/`includes`, `split`/`join`, decimal printing |
| `wire.dfy` | `Wire` | the four primitives, each as a function of the byte sequence and as a method over the byte array |
| `gtfs.dfy` | `Gtfs` | the six parsers: every loop as a function recursive in the cursor, and as a method whose `while` loop computes that function |
| `wire_encoding.dfy` | `WireEncoding` | canonical encodings of varints and length-delimited payloads, and proofs that the primitives read them back |
| `gtfs_messages.dfy` | `GtfsMessages` | well-formed messages, their encoding, and the meaning the worker gives them |
| `gtfs_layout.dfy`, `gtfs_roundtrip.dfy` | `GtfsLayout`, `GtfsRoundTrip` | the round trip: every well-formed message decodes to its meaning |
| `gtfs_last_wins.dfy` | `GtfsLastWins` | which occurrence of a repeated field the meaning keeps, stated by scanning from the end |
| `registry.dfy` | `Registry` | `getFeedList` |
| `upstream.dfy` | `Upstream` | `buildUpstreamRequest` |
| `aggregate.dfy` | `Aggregate` | the selector, the selection, the merge, the clipping |

**Integer widths.** `readVarint32` computes `result |= (b & 0x7f) << shift` on 32-bit words, and JavaScript takes
the shift count mod 32. The model does the same on naturals:
- `Shl(x, shift % 32) % 2^32`;
- a bitwise or;
- the final `>>> 0`, which makes the result a natural below 2^32.

`readVarint64` uses BigInt and is unbounded.

**The nested loops.** They stop at their own `end` but read against the whole buffer. `p + len` is never checked
against the buffer length, and `skipField`'s `p + 8` / `p + 4` are not bounds-checked. The model keeps all three.

**Errors.** Every error the source throws is a `Result` error, never a precondition:
- "Truncated varint32", "Varint32 too long" and their 64-bit twins;
- "Truncated skip(varint)" and "Unsupported wire type N";
- getFloat32's RangeError;
- each of getFeedList's messages;
- "GTFS_RT_URL is not set" and "GTFS_API_KEY is not set";
- "Unknown feed '…'. Known: …".

## Model

| member | source | states |
|---|---|---|
| Wire.ErrorMessage | src/worker.js:585-625 | each decoder error has the non-empty message the source throws |
| Wire.Varint32At | src/worker.js:580-592 | a successful readVarint32 returns a value below 2^32 and an index past p, at most p + 6, within the buffer |
| Wire.Varint32Outcome | src/worker.js:584-591 | readVarint32 ends one past the first byte without the continuation bit; it throws "Varint32 too long" exactly when six continuation bytes lie in the buffer, and "Truncated varint32" exactly when the buffer ends first; no other outcome |
| Wire.Varint32FromBound | src/worker.js:587-588 | the 32-bit `\|=` / `<<` accumulation stays below 2^32 |
| Wire.ReadVarint32 | src/worker.js:580-592 | the `while (true)` loop over the byte array computes Varint32At |
| Wire.Varint64At | src/worker.js:594-606 | a successful readVarint64 consumes at most 11 bytes and returns a value below 2^(7·bytes consumed) |
| Wire.Varint64Outcome | src/worker.js:598-605 | readVarint64 throws "Varint64 too long" exactly when eleven continuation bytes lie in the buffer, and "Truncated varint64" exactly when the buffer ends first |
| Wire.Varint64FromBound | src/worker.js:601-604 | the BigInt accumulation after k bytes stays below 2^(7k) |
| Wire.ReadVarint64 | src/worker.js:594-606 | the loop over the byte array computes Varint64At |
| Wire.SkipVarintOutcome | src/worker.js:610-615 | wire type 0 stops one past the first byte without the continuation bit, and throws "Truncated skip(varint)" exactly when there is none |
| Wire.SkipFieldAt | src/worker.js:608-627 | wire type 0 skips a varint; 1 skips 8 bytes and 5 skips 4, without a bounds check; 2 reads a length and ends the field at the length's end plus the length; any other wire type is "Unsupported wire type"; every accepted wire type moves the cursor strictly forward |
| Wire.SkipField | src/worker.js:608-627 | the switch and its loop over the byte array compute SkipFieldAt |
| Wire.StringAt | src/worker.js:572-578 | readString fails exactly when the length varint does; otherwise the new cursor is the length's end plus the length, unclamped, and the text is the decoding of the bytes from there up to that end or the buffer's end, whichever is first; the cursor moves strictly forward |
| Wire.ReadString | src/worker.js:572-578 | the method over the byte array computes StringAt |
| Wire.DecodeUtf8 | src/worker.js:576 | the decoded string is empty exactly when the slice is empty or is only the UTF-8 byte order mark |
| Wire.Float32At | src/worker.js:549-561 | getFloat32 succeeds exactly when its four bytes lie in the buffer, and returns those bytes |
| Wire.GetFloat32 | src/worker.js:549 | the method computes Float32At |
| WireEncoding.Varint32RoundTrip | src/worker.js:580-592 | for every n < 2^32, readVarint32 on n's canonical encoding returns n and the index just past it |
| WireEncoding.Varint64RoundTrip | src/worker.js:594-606 | for every n < 2^77, readVarint64 on n's canonical encoding returns n and the index just past it |
| WireEncoding.SkipVarintEncoding | src/worker.js:610-615 | skipField with wire type 0 passes exactly over a varint's encoding |
| WireEncoding.StringRoundTrip | src/worker.js:572-578 | readString on a length-prefixed payload returns its decoded text and the index just past the payload |
| WireEncoding.LengthPrefix | src/worker.js:618-621 | the length prefix reads back as the payload length, with the payload right after it |
| WireEncoding.EncodeVarintSize | src/worker.js:590 | a number below 2^(7k) has at most k varint bytes |
| GtfsLayout.PayloadSkipped | src/worker.js:608-627 | skipField passes exactly over the encoding of any payload, whatever its wire type |
| GtfsLayout.UnknownRead | src/worker.js:361 | an unknown field is its tag, then skipField lands exactly at its end |
| Gtfs.TimestampOf | src/worker.js:459-461 | a timestamp up to 2^53 − 1 is the same number; a larger one is its canonical decimal string, which denotes the same integer |
| Gtfs.EntityVehicle | src/worker.js:406-421 | an entity yields a record exactly when it is not deleted, has a vehicle with a position and a non-empty id, and its latitude and longitude are finite. The id is the vehicle descriptor id, else the entity id, else the trip id. Bearing is kept exactly when finite, the timestamp as is, and route_id when non-empty |
| Gtfs.ParsePosition | src/worker.js:535-570 | the `while (p < end)` loop over the byte array computes PositionLoop from three NaNs |
| Gtfs.ParseTripDescriptor | src/worker.js:481-510 | the loop computes TripLoop from two empty ids |
| Gtfs.ParseVehicleDescriptorId | src/worker.js:512-533 | the loop computes DescriptorLoop from the empty id |
| Gtfs.ParseVehiclePosition | src/worker.js:424-479 | the loop, with its nested parser calls, computes VehicleLoop |
| Gtfs.ParseFeedEntity | src/worker.js:367-422 | the loop and the final filter compute EntityAt |
| Gtfs.ParseGtfsRtVehiclePositions | src/worker.js:337-365 | the top-level loop computes ParseFeed |
| Gtfs.FeedLoopAppends | src/worker.js:344-364 | the top-level loop only appends to `out`, in entity order; its result and its errors do not depend on what `out` held |
| GtfsRoundTrip.PositionRoundTrip | src/worker.js:535-570 | parsePosition on the encoding of any well-formed Position returns its floats, the last occurrence of each winning; other fields are skipped |
| GtfsRoundTrip.TripRoundTrip | src/worker.js:481-510 | parseTripDescriptor returns the last trip_id and route_id; other fields are skipped |
| GtfsRoundTrip.DescriptorRoundTrip | src/worker.js:512-533 | parseVehicleDescriptorId returns the last id; other fields are skipped |
| GtfsRoundTrip.VehicleRoundTrip | src/worker.js:424-479 | parseVehiclePosition returns the meaning of the fields. Trip and descriptor ids are overwritten only by non-empty values; a later position or timestamp replaces an earlier one; unknown fields are skipped |
| GtfsRoundTrip.VehicleTimestampRead | src/worker.js:459-463 | field 5 is read with readVarint64 and replaces the timestamp |
| GtfsRoundTrip.EntityRoundTrip | src/worker.js:367-404 | parseFeedEntity's loop returns the entity id, the deletion flag (any non-zero varint) and the last vehicle |
| GtfsLastWins.TripIdsLastWin | src/worker.js:439-447 | a vehicle's trip_id is the last non-empty trip_id over all its trip sub-messages, else the one it started with; route_id likewise, independently |
| GtfsLastWins.VehicleIdLastWins | src/worker.js:466-472 | a vehicle's id is the last non-empty id over all its vehicle descriptors, else the one it started with: an empty id never erases an earlier one |
| GtfsLastWins.EntityVehicleLastWins | src/worker.js:394-400 | an entity's vehicle is the meaning of its last vehicle sub-message alone, else the one it started with |
| GtfsRoundTrip.ParseEncodedFeed | src/worker.js:337-365 | for every well-formed FeedMessage, parseGtfsRtVehiclePositions returns the usable vehicle of each entity, in entity order; headers and unknown fields are skipped |
| Strings.Decimal | src/worker.js:461 | `toString()` of a natural is a non-empty string of digits without a leading zero |
| Strings.DecimalRoundTrip | src/worker.js:461 | reading back the printed number gives the number |
| Strings.TrimStart | src/worker.js:148 | the leading white space is removed, and nothing else |
| Strings.TrimEnd | src/worker.js:148 | the trailing white space is removed, and nothing else |
| Strings.Trim | src/worker.js:148 | `trim()` is empty exactly when the string is all white space; otherwise it neither starts nor ends with white space |
| Strings.TrimIdempotent | src/worker.js:177-183 | trimming twice is trimming once |
| Strings.TrimUnchanged | src/worker.js:66 | a string with no white space at either end is its own trim |
| Strings.Sanitize | src/worker.js:186 | `replace(/[^a-zA-Z0-9_-]/g, "")` leaves only `[A-Za-z0-9_-]` and is empty exactly when there was none |
| Strings.SanitizeAppend | src/worker.js:186 | the filter works piece by piece, keeping order |
| Strings.SanitizeKeeps | src/worker.js:186 | an id already made of `[A-Za-z0-9_-]` is unchanged |
| Strings.LowerMatches | src/worker.js:318-320 | comparing `toLowerCase()` with lower-case ASCII text is comparing up to case: same length, and each character is the text's own, its ASCII capital, or KELVIN SIGN for `k` |
| Strings.LowerStartsWith | src/worker.js:319-320 | `toLowerCase().startsWith(t)` for lower-case ASCII `t` compares, up to case, as many leading characters as `t` has |
| Upstream.AuthValueIgnoresCase | src/worker.js:318-320 | the key gets the `apikey ` prefix exactly when the header name is `authorization` in any case and the key begins with neither `apikey ` nor `bearer ` in any case |
| Strings.IndexOf | src/worker.js:289 | the first occurrence of the pattern, or none at all |
| Strings.Split | src/worker.js:291 | `split` gives one piece exactly when the separator does not occur |
| Strings.JoinSplit | src/worker.js:291 | joining the pieces of `split(sep)` with `sep` gives back the string |
| Strings.SplitPiecesFree | src/worker.js:291 | no piece of `split(sep)` contains `sep` |
| Strings.ReplaceAllPieces | src/worker.js:291 | `split(pat).join(rep)` replaces every occurrence: it joins with `rep` the pattern-free pieces that `pat` joins into the original |
| Registry.FeedOfItemKept | src/worker.js:176-180 | an item is kept exactly when it is an object whose trimmed id and url are non-empty |
| Registry.FeedOfItemFields | src/worker.js:182-194 | a kept item's id is its trimmed id with every character outside `[A-Za-z0-9_-]` removed (maybe none left); its url is the trimmed url, non-empty; its label is the trimmed label when one is given, else the trimmed id; its icon is the trimmed icon; its facing is the trimmed facing when given, else `left`; auth_header / auth_query are carried over |
| Registry.GetFeedList | src/worker.js:147-203 | the method, with its `for` loop pushing onto `out`, computes FeedList |
| Registry.LegacyFeed | src/worker.js:148-162 | with GTFS_RT_FEEDS empty: the single `default` feed at the trimmed GTFS_RT_URL, or the error when that is empty too |
| Registry.KeptFeedsAppend | src/worker.js:176-196 | kept descriptors follow configuration order |
| Registry.KeptFeedsCount | src/worker.js:176-200 | at most one descriptor per item; none kept exactly when no item is usable; every descriptor comes from an item |
| Registry.FeedListFromJson | src/worker.js:198-202 | a JSON configuration fails exactly when nothing is kept; otherwise it yields the first min(kept, 20) descriptors, between 1 and 20 of them |
| Registry.FeedListWellFormed | src/worker.js:147-203 | every feed in a successful list has a url and an id made only of `[A-Za-z0-9_-]` |
| Upstream.AuthValue | src/worker.js:317-324 | the header value is `apikey <key>` exactly when the header name lowers to `authorization` and the lowered key starts with neither `apikey ` nor `bearer `; otherwise the key verbatim |
| Upstream.BuildUpstreamRequest | src/worker.js:282-328 | "GTFS_RT_URL is not set" on an empty url. Otherwise: a `{{API_KEY}}` url gets every occurrence replaced by the encoded key, or "GTFS_API_KEY is not set"; else a query name and a key set that parameter; else a header name and a key add that header. Only `accept` is sent otherwise |
| Aggregate.Selector | src/worker.js:66 | the selector is never empty and has no surrounding white space; it is `all` exactly when the parameter is absent, blank or `all` after trimming; otherwise it is the trimmed parameter |
| Aggregate.DefaultedTrim | src/worker.js:66 | the given string, defaulted to `all` when empty, trimmed and defaulted again, is never empty and has no surrounding white space; it is `all` exactly when the given string is blank or trims to `all`, and the trimmed string otherwise |
| Aggregate.WithId | src/worker.js:211 | the filter keeps only feeds with that id and never grows the list |
| Aggregate.WithIdMembers | src/worker.js:211 | the filter keeps every feed with that id and nothing else, and is empty exactly when none has it |
| Aggregate.WithIdAppend | src/worker.js:211 | the filter keeps configuration order: filtering a concatenation is concatenating the filtered parts, so feeds sharing an id all stay, in order |
| Aggregate.Select | src/worker.js:208-215 | `all` selects every feed; any other selector selects exactly the feeds with that id (every one of them, in configuration order, as WithId gives them) and fails, listing the known ids, exactly when there is none |
| Aggregate.EmptyIdOnlyUnderAll | src/worker.js:208-212 | a feed whose id sanitised to nothing is selected only under `all`, because line 66's selector is never empty |
| Aggregate.ConcatAt | src/worker.js:221-256 | the contribution of the i-th feed sits, element by element, at its offset, before the next feed's |
| Aggregate.OffsetMonotone | src/worker.js:221-256 | earlier feeds' contributions come before later ones' |
| Aggregate.PushTagged | src/worker.js:226-243 | the inner loop appends the tagged vehicles of one feed |
| Aggregate.Merge | src/worker.js:221-256 | the merge loop pushes exactly the concatenation, in selection order, of the feeds' vehicles and errors |
| Aggregate.MergedVehicle | src/worker.js:228-240 | the j-th vehicle of the i-th feed is in the response at its place, with id `feedId:rawId`, `feed` = the feed's id, the feed's icon, its facing or `left` when empty, and its label or its id when empty |
| Aggregate.ReasonText | src/worker.js:251 | the error text is the rejection's message when non-empty; for an Error with an empty message, its own string form (Error.prototype.toString, here its name); a non-Error value's string form; `unknown error` for a falsy reason |
| Aggregate.OneErrorPerFailure | src/worker.js:242-253 | there is exactly one `errors` entry per failed feed, in selection order, carrying its id, icon, facing (or `left`), label (or id) and ReasonText of its rejection |
| Aggregate.NoCrossFeedCollision | src/worker.js:229 | feed ids hold no colon, so vehicles of feeds with different ids never share an id |
| Aggregate.FetchAndParseVehiclesMulti | src/worker.js:205-264 | the method computes MultiFeed |
| Aggregate.UnknownFeedBeforeFetch | src/worker.js:209-215 | an unknown selector fails with the same error whatever the feeds would yield: no fetch is needed |
| Aggregate.OnlySelectedFetched | src/worker.js:217-219 | the result depends only on the outcomes of the selected feeds |
| Aggregate.FeedsUsedMirrorSelection | src/worker.js:257-262 | `feeds` lists the selected feeds in order, with their ids, their labels as given (no fallback), their icons, and their facing or `left` when empty |
| Registry.SanitizedIdsCollide | src/worker.js:176-194 | ids are not made unique: items with ids `a!` and `a?` are both kept, as two different feeds with the id `a` |
| Aggregate.Clip | src/worker.js:84 | the response holds the first min(n, 50000) vehicles |

## Left out

- HTTP routing, CORS, the health and feeds endpoints, `Response`/`json`/`headFrom` and the JSON body (`generated_at`,
  `ttl`) are plumbing around the modelled logic.
- The edge cache (`caches.default`, `cache.match`/`put`, `ctx.waitUntil`) is a platform service. Only the selector that
  keys it is modelled.
- `fetch`, `arrayBuffer`, `Promise.allSettled` and `fetchAndParseVehiclesFromFeed` (src/worker.js:266-280) are network
  I/O and concurrency. The settled outcome of each feed is the parameter `fetch` of
  `Aggregate.FetchAndParseVehiclesMulti`.
- `JSON.parse` of GTFS_RT_FEEDS is a parameter of `Registry.GetFeedList`, and its result is a `ParsedConfig`.
- Registry.FeedOfItem: property values that are not strings are not modelled. `String(item.id || "")` of a number,
  boolean or object (e.g. `"5"`, `"true"`) is out of scope. A property is either a string or missing.
- Wire.DecodeUtf8: TextDecoder's UTF-8 decoding is not modelled beyond stripping a leading byte order mark. The text is
  one character per byte. Malformed sequences and multi-byte characters are not decoded.
- Wire.Float32At: the IEEE-754 value of a float is not modelled. A float is its four little-endian bytes, and
  `Number.isFinite` is the exact test on them: the exponent is not all ones.
- Upstream.BuildUpstreamRequest: `encodeURIComponent` and `new URL` / `searchParams.set` / `toString` are parameters.
  The invalid-url TypeError is the error `setQuery` may return.
- Upstream.BuildUpstreamRequest: headers are a map keyed by the name as written. How `fetch` merges names that differ
  only in case is not modelled.
- Strings.LowerChar: `toLowerCase` is modelled one character to one: A–Z lower to a–z and KELVIN SIGN to `k`, and every
  other character is left unchanged. The real mapping differs elsewhere:
  - letters outside ASCII lower to other letters outside ASCII;
  - U+0130 (İ) lowers to `i` followed by U+0307, which lengthens the string.

  This is still exact for the comparisons the worker makes, against `authorization`, `apikey ` and `bearer `. Each of those
  texts is ASCII, and none ends in `i`. So the U+0307 after such an `i` always falls inside the compared text, where it
  never matches, just as the unchanged İ never matches in the model.
- Aggregate.ReasonText: a rejection reason is an Error (name and message), a falsy value, or another value given by its
  string form. A non-Error object with its own `message` property is not modelled.
- Aggregate.FetchAndParseVehiclesMulti: the settled outcome of a fetch is a function of the feed descriptor, so two
  identical configured feeds settle alike. Real fetches of the same url may settle differently (timing, a transient
  failure); `Merge` itself takes the outcomes as a sequence and does not depend on this.
- Aggregate.NoCrossFeedCollision: holds only for feeds with different ids. getFeedList does not make ids unique
  (Registry.SanitizedIdsCollide), and vehicles of two feeds sharing an id can then share a response id.
- The duplicated `icon`/`facing`/`label` keys (src/worker.js:233-250) have no effect, so the metadata is attached once.
- GtfsRoundTrip.ParseEncodedFeed: the round trip is proved for well-formed messages only. That means:
  - canonical varints;
  - lengths below 2^32;
  - field numbers below 2^29;
  - timestamps below 2^77.

  Malformed input is covered by the error-case lemmas of the primitives instead.
- `public/app.js` (the browser map) is not part of this model.
