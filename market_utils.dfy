/**
 * Matching of craftable badges with booster-pack market listings, and the
 * aggregation of crafting cost against resale price (market_utils.py).
 *
 * Listing catalogues and badge tables are Python dicts, modelled as `Dict`s that
 * keep the dicts' iteration order. Deriving an app id or an app name
 * from a listing hash is done by functions of another module; here they are the
 * parameters `appIdOf` and `appNameOf`. The gem unit price is a parameter as well.
 * Prices are exact: `gemPrice` and `sellPrice` are reals.
 */
module MarketUtils {
  import opened Wrappers
  import opened Dicts
  import opened Text

  /** The marker of listing hashes that name a trading-card item type rather than one game's booster pack. */
  const DUBIOUS_MARKER: string := "#Economy_TradingCards_"

  /** A market listing; `sellPrice` is in cents. */
  datatype Listing = Listing(sellPrice: int)

  /** One craftable badge; `nextCreationTime` is None when the detail has no such key. */
  datatype BadgeDetail = BadgeDetail(name: string, gemValue: int, nextCreationTime: Option<string>)

  /** One row of the aggregated table: crafting cost against resale price, both in euros. */
  datatype BadgeRecord = BadgeRecord(
    name: string,
    listingHash: string,
    gemAmount: int,
    gemPrice: real,
    sellPrice: real,
    nextCreationTime: Option<string>)

  /** The KeyErrors aggregation can raise. */
  datatype AggregationError =
    | MissingBadgeMatch(appId: int)       // `badge_matches[app_id]`
    | MissingListing(listingHash: string) // `all_listings[listing_hash]`

  // ---------------------------------------------------------------------------
  // Dubious listing hashes

  function IsDubious(listingHash: string): (r: bool)
    ensures r <==> IsSubstring(DUBIOUS_MARKER, listingHash)
  {
    Contains(listingHash, DUBIOUS_MARKER)
  }

  /**
   * Any hash with the marker somewhere inside it is dubious, such as
   * "362680-Fran Bow #Economy_TradingCards_ItemType_BoosterPack" or
   * "844870-#Economy_TradingCards_Type_GameType".
   */
  lemma MarkerMakesDubious(before: string, after: string)
    ensures IsDubious(before + DUBIOUS_MARKER + after)
  {
    var h := before + DUBIOUS_MARKER + after;
    assert h[|before|..|before| + |DUBIOUS_MARKER|] == DUBIOUS_MARKER;
    assert OccursAt(DUBIOUS_MARKER, h, |before|);
  }

  /** A genuine booster-pack hash: the marker's first character does not occur in it. */
  lemma GenuineExample()
    ensures !IsDubious("211820-Starbound Booster Pack")
  {
    FirstCharAbsent(DUBIOUS_MARKER, "211820-Starbound Booster Pack");
  }

  // ---------------------------------------------------------------------------
  // Filtering

  /** The listing hashes that are not dubious, in their original order. */
  function NonDubious(hashes: seq<string>): (r: seq<string>)
    ensures forall h :: h in r <==> h in hashes && !IsDubious(h)
    ensures Distinct(hashes) ==> Distinct(r)
    decreases |hashes|
  {
    if hashes == [] then []
    else
      var rest := NonDubious(hashes[1..]);
      assert forall h :: h in hashes <==> h == hashes[0] || h in hashes[1..];
      assert Distinct(hashes) ==> hashes[0] !in hashes[1..];
      (if IsDubious(hashes[0]) then [] else [hashes[0]]) + rest
  }

  /** The dubious listing hashes, in their original order: the ones reported as omitted. */
  function DubiousHashes(hashes: seq<string>): seq<string>
    decreases |hashes|
  {
    if hashes == [] then []
    else (if IsDubious(hashes[0]) then [hashes[0]] else []) + DubiousHashes(hashes[1..])
  }

  /**
   * The catalogue without its dubious listing hashes: a hash stays, with its
   * listing unchanged, exactly when it is not dubious.
   */
  function Filtered<V>(listings: Dict<string, V>): (r: Dict<string, V>)
    ensures forall h :: Get(r, h) == if IsDubious(h) then None else Get(listings, h)
  {
    OrderedMap(NonDubious(listings.keys), map h | h in listings.items && !IsDubious(h) :: listings.items[h])
  }

  /** Filtering works hash by hash, so it keeps the relative order of what it keeps. */
  lemma {:induction false} NonDubiousAppend(a: seq<string>, b: seq<string>)
    ensures NonDubious(a + b) == NonDubious(a) + NonDubious(b)
    decreases |a|
  {
    if a != [] {
      assert (a + b)[1..] == a[1..] + b;
      NonDubiousAppend(a[1..], b);
    } else {
      assert a + b == b;
    }
  }

  /** No kept hash is dubious, so filtering the hashes twice is filtering them once. */
  lemma {:induction false} NonDubiousIdempotent(hashes: seq<string>)
    ensures NonDubious(NonDubious(hashes)) == NonDubious(hashes)
    decreases |hashes|
  {
    if hashes != [] {
      var head := if IsDubious(hashes[0]) then [] else [hashes[0]];
      NonDubiousAppend(head, NonDubious(hashes[1..]));
      NonDubiousIdempotent(hashes[1..]);
      if !IsDubious(hashes[0]) {
        assert NonDubious(head) == head by {
          assert head[1..] == [];
        }
      }
    }
  }

  /** Filtering a filtered catalogue changes nothing. */
  lemma FilteredIdempotent<V>(listings: Dict<string, V>)
    ensures Filtered(Filtered(listings)) == Filtered(listings)
  {
    NonDubiousIdempotent(listings.keys);
    Extensional(Filtered(Filtered(listings)), Filtered(listings));
  }

  /**
   * The count reported as omitted, `len(all_listings) - len(filtered_listings)`,
   * is the number of dubious hashes, and the omitted hashes are exactly the dubious ones.
   */
  lemma {:induction false} OmittedCount(hashes: seq<string>)
    ensures |NonDubious(hashes)| + |DubiousHashes(hashes)| == |hashes|
    ensures forall h :: h in DubiousHashes(hashes) <==> h in hashes && IsDubious(h)
    decreases |hashes|
  {
    if hashes != [] {
      OmittedCount(hashes[1..]);
      assert forall h :: h in hashes <==> h == hashes[0] || h in hashes[1..];
    }
  }

  /** What the filtered copy holds after the first i hashes have been visited. */
  ghost predicate FilteredUpTo<V>(filtered: Dict<string, V>, listings: Dict<string, V>, i: int)
    requires 0 <= i <= |listings.keys|
  {
    && filtered.keys == NonDubious(listings.keys[..i])
    && forall h :: Get(filtered, h) == if h in listings.keys[..i] && !IsDubious(h) then Get(listings, h) else None
  }

  /** Filtering one more hash appends it exactly when it is not dubious. */
  lemma NonDubiousSnoc(seen: seq<string>, h: string)
    ensures NonDubious(seen + [h]) == if IsDubious(h) then NonDubious(seen) else NonDubious(seen) + [h]
  {
    NonDubiousAppend(seen, [h]);
    assert [h][1..] == [];
  }

  /** The first i + 1 hashes are the first i and then hash i. */
  lemma SeenNext<V>(listings: Dict<string, V>, i: int)
    requires 0 <= i < |listings.keys|
    ensures listings.keys[..i + 1] == listings.keys[..i] + [listings.keys[i]]
    ensures forall k :: k in listings.keys[..i + 1] <==> k in listings.keys[..i] || k == listings.keys[i]
  {
    assert listings.keys[..i + 1] == listings.keys[..i] + [listings.keys[i]];
  }

  /** Skipping a dubious hash keeps FilteredUpTo. */
  lemma FilterSkip<V>(filtered: Dict<string, V>, listings: Dict<string, V>, i: int)
    requires 0 <= i < |listings.keys| && IsDubious(listings.keys[i])
    requires FilteredUpTo(filtered, listings, i)
    ensures FilteredUpTo(filtered, listings, i + 1)
  {
    SeenNext(listings, i);
    NonDubiousSnoc(listings.keys[..i], listings.keys[i]);
  }

  /** Copying a hash that is not dubious keeps FilteredUpTo. */
  lemma FilterCopy<V>(filtered: Dict<string, V>, listings: Dict<string, V>, i: int)
    requires 0 <= i < |listings.keys| && !IsDubious(listings.keys[i])
    requires FilteredUpTo(filtered, listings, i)
    ensures FilteredUpTo(Put(filtered, listings.keys[i], ValueAt(listings, i)), listings, i + 1)
  {
    var h, v := listings.keys[i], ValueAt(listings, i);
    SeenNext(listings, i);
    NonDubiousSnoc(listings.keys[..i], h);
    KeyNotBefore(listings, i);
    PutNew(filtered, h, v);
  }

  /** Visiting the next hash, and copying it when it is not dubious, keeps FilteredUpTo. */
  lemma FilterStep<V>(filtered: Dict<string, V>, listings: Dict<string, V>, i: int)
    requires 0 <= i < |listings.keys|
    requires FilteredUpTo(filtered, listings, i)
    ensures var h := listings.keys[i];
      FilteredUpTo(if IsDubious(h) then filtered else Put(filtered, h, ValueAt(listings, i)), listings, i + 1)
  {
    if IsDubious(listings.keys[i]) {
      FilterSkip(filtered, listings, i);
    } else {
      FilterCopy(filtered, listings, i);
    }
  }

  /** `filter_out_dubious_listing_hashes`: copies the catalogue into a fresh dict, skipping dubious hashes. */
  method FilterOutDubiousListingHashes<V>(allListings: Dict<string, V>) returns (filtered: Dict<string, V>)
    ensures filtered == Filtered(allListings)
  {
    filtered := Empty();
    var i := 0;
    while i < |allListings.keys|
      invariant 0 <= i <= |allListings.keys|
      invariant FilteredUpTo(filtered, allListings, i)
    {
      var listingHash := allListings.keys[i];
      var listing := ValueAt(allListings, i);
      FilterStep(filtered, allListings, i);
      if !IsDubious(listingHash) {
        filtered := Put(filtered, listingHash, listing);
      }
      i := i + 1;
    }
    assert allListings.keys[..i] == allListings.keys;
    forall h ensures Get(filtered, h) == Get(Filtered(allListings), h) {
      assert h in allListings.keys ==> h in allListings.items;
    }
    Extensional(filtered, Filtered(allListings));
  }

  // ---------------------------------------------------------------------------
  // Matching

  /** Index j holds the last hash, in iteration order, that derives to k. */
  ghost predicate IsLastWith<K>(hashes: seq<string>, derive: string -> K, k: K, j: int)
  {
    0 <= j < |hashes| && derive(hashes[j]) == k
    && forall j' :: j < j' < |hashes| ==> derive(hashes[j']) != k
  }

  /** Some hash derives to k. */
  ghost predicate DerivesTo<K>(hashes: seq<string>, derive: string -> K, k: K)
  {
    exists j :: 0 <= j < |hashes| && derive(hashes[j]) == k
  }

  /**
   * What a lookup table filled by `table[derive(h)] = h` over the hashes holds at
   * key k: the last hash deriving to k (last write wins), or nothing.
   */
  function LastWith<K(==)>(hashes: seq<string>, derive: string -> K, k: K): (r: Option<string>)
    ensures r.None? <==> !DerivesTo(hashes, derive, k)
    ensures r.Some? ==> exists j :: IsLastWith(hashes, derive, k, j) && hashes[j] == r.value
    decreases |hashes|
  {
    if hashes == [] then None
    else if derive(hashes[|hashes| - 1]) == k then
      assert IsLastWith(hashes, derive, k, |hashes| - 1);
      Some(hashes[|hashes| - 1])
    else
      var prefix := hashes[..|hashes| - 1];
      var r := LastWith(prefix, derive, k);
      assert DerivesTo(prefix, derive, k) ==> DerivesTo(hashes, derive, k);
      assert r.Some? ==> exists j :: IsLastWith(hashes, derive, k, j) && hashes[j] == r.value by {
        if r.Some? {
          var j :| IsLastWith(prefix, derive, k, j) && prefix[j] == r.value;
          assert IsLastWith(hashes, derive, k, j);
        }
      }
      r
  }

  /**
   * The listing hash a badge is matched with: by app id first; by app name only
   * when no hash derives to the app id; None when neither does.
   */
  function ResolveBadge(
    hashes: seq<string>, appIdOf: string -> int, appNameOf: string -> string, appId: int, name: string)
    : (r: Option<string>)
    ensures DerivesTo(hashes, appIdOf, appId) ==>
      r.Some? && exists j :: IsLastWith(hashes, appIdOf, appId, j) && hashes[j] == r.value
    ensures !DerivesTo(hashes, appIdOf, appId) && DerivesTo(hashes, appNameOf, name) ==>
      r.Some? && exists j :: IsLastWith(hashes, appNameOf, name, j) && hashes[j] == r.value
    ensures r.None? <==> !DerivesTo(hashes, appIdOf, appId) && !DerivesTo(hashes, appNameOf, name)
    ensures r.Some? ==> r.value in hashes
  {
    var byId := LastWith(hashes, appIdOf, appId);
    if byId.Some? then byId else LastWith(hashes, appNameOf, name)
  }

  /** The match table: one entry per badge, in the badges' order, holding its resolved match. */
  function BadgeMatches(
    badges: Dict<int, BadgeDetail>, hashes: seq<string>, appIdOf: string -> int, appNameOf: string -> string)
    : Dict<int, Option<string>>
  {
    OrderedMap(badges.keys, map a | a in badges.items :: ResolveBadge(hashes, appIdOf, appNameOf, a, badges.items[a].name))
  }

  /** The lookup table holds, at every key, the last hash seen deriving to it. */
  ghost predicate TableMatches<K(!new)>(table: Dict<K, string>, seen: seq<string>, derive: string -> K)
  {
    forall k :: Get(table, k) == LastWith(seen, derive, k)
  }

  /** One assignment `table[derive(h)] = h` keeps the table equal to LastWith over the hashes seen. */
  lemma TableStep<K(!new)>(table: Dict<K, string>, hashes: seq<string>, derive: string -> K, i: int)
    requires 0 <= i < |hashes|
    requires TableMatches(table, hashes[..i], derive)
    ensures TableMatches(Put(table, derive(hashes[i]), hashes[i]), hashes[..i + 1], derive)
  {
    var seen := hashes[..i + 1];
    assert seen[..i] == hashes[..i] && seen[i] == hashes[i];
    forall k ensures Get(Put(table, derive(hashes[i]), hashes[i]), k) == LastWith(seen, derive, k) {
      assert Get(table, k) == LastWith(hashes[..i], derive, k);
    }
  }

  /** `match_badges_with_listing_hashes`, given the badge details and the catalogue. */
  method MatchBadgesWithListingHashes<V>(
    badges: Dict<int, BadgeDetail>, allListings: Dict<string, V>,
    appIdOf: string -> int, appNameOf: string -> string)
    returns (badgeMatches: Dict<int, Option<string>>)
    ensures badgeMatches == BadgeMatches(badges, allListings.keys, appIdOf, appNameOf)
  {
    var hashes := allListings.keys;
    var byId: Dict<int, string> := Empty();
    var byName: Dict<string, string> := Empty();
    var i := 0;
    while i < |hashes|
      invariant 0 <= i <= |hashes|
      invariant TableMatches(byId, hashes[..i], appIdOf)
      invariant TableMatches(byName, hashes[..i], appNameOf)
    {
      var listingHash := hashes[i];
      TableStep(byId, hashes, appIdOf, i);
      TableStep(byName, hashes, appNameOf, i);
      byId := Put(byId, appIdOf(listingHash), listingHash);
      byName := Put(byName, appNameOf(listingHash), listingHash);
      i := i + 1;
    }
    assert hashes[..i] == hashes;
    ghost var expected := BadgeMatches(badges, hashes, appIdOf, appNameOf);
    badgeMatches := Empty();
    var j := 0;
    while j < |badges.keys|
      invariant 0 <= j <= |badges.keys|
      invariant badgeMatches.keys == badges.keys[..j]
      invariant forall a :: Get(badgeMatches, a) == if a in badges.keys[..j] then Get(expected, a) else None
    {
      var appId := badges.keys[j];
      var detail := ValueAt(badges, j);
      var listingHash := Get(byId, appId);
      if listingHash.None? {
        listingHash := Get(byName, detail.name);
      }
      KeyNotBefore(badges, j);
      assert badges.keys[..j + 1] == badges.keys[..j] + [appId];
      badgeMatches := Put(badgeMatches, appId, listingHash);
      j := j + 1;
    }
    assert badges.keys[..j] == badges.keys;
    Extensional(badgeMatches, expected);
  }

  // ---------------------------------------------------------------------------
  // Aggregation

  /** The badge has a listing hash in the match table, not None. */
  predicate IsMatched(matches: Dict<int, Option<string>>, appId: int)
  {
    appId in matches.items && matches.items[appId].Some?
  }

  /**
   * One iteration of the aggregation loop: the KeyError it raises, a skip (None)
   * for an unmatched badge, or the badge's record.
   */
  function BadgeRecordOf(
    appId: int, detail: BadgeDetail, matches: Dict<int, Option<string>>,
    listings: Dict<string, Listing>, gemUnitPrice: real)
    : (r: Result<Option<BadgeRecord>, AggregationError>)
    ensures r == Failure(MissingBadgeMatch(appId)) <==> appId !in matches.keys
    ensures r == Success(None) <==> Get(matches, appId) == Some(None)
    ensures r.Success? && r.value.Some? ==>
      IsMatched(matches, appId)
      && var h := matches.items[appId].value;
      && h in listings.keys
      && var rec := r.value.value;
      && rec.name == detail.name && rec.listingHash == h && rec.gemAmount == detail.gemValue
      && rec.gemPrice == detail.gemValue as real * gemUnitPrice
      && rec.sellPrice * 100.0 == listings.items[h].sellPrice as real
      && rec.nextCreationTime == detail.nextCreationTime
    ensures r.Failure? ==> r.error == MissingBadgeMatch(appId) || r.error.MissingListing?
    ensures IsMatched(matches, appId) && matches.items[appId].value in listings.keys ==>
      r.Success? && r.value.Some?
    ensures r.Failure? && r.error.MissingListing? ==>
      IsMatched(matches, appId) && r.error.listingHash == matches.items[appId].value
      && r.error.listingHash !in listings.keys
  {
    var entry := Get(matches, appId);
    if entry.None? then Failure(MissingBadgeMatch(appId))
    else if entry.value.None? then Success(None)
    else
      var listingHash := entry.value.value;
      var listing := Get(listings, listingHash);
      if listing.None? then Failure(MissingListing(listingHash))
      else
        var record := BadgeRecord(
          detail.name, listingHash, detail.gemValue,
          detail.gemValue as real * gemUnitPrice,
          listing.value.sellPrice as real / 100.0,
          detail.nextCreationTime);
        Success(Some(record))
  }

  /** The iteration of the aggregation loop for the j-th badge in iteration order. */
  function Iteration(
    badges: Dict<int, BadgeDetail>, j: int, matches: Dict<int, Option<string>>,
    listings: Dict<string, Listing>, gemUnitPrice: real)
    : Result<Option<BadgeRecord>, AggregationError>
    requires 0 <= j < |badges.keys|
  {
    BadgeRecordOf(badges.keys[j], ValueAt(badges, j), matches, listings, gemUnitPrice)
  }

  /** The aggregation loop over the first n badges in iteration order; the first KeyError ends it. */
  function Aggregated(
    badges: Dict<int, BadgeDetail>, n: nat, matches: Dict<int, Option<string>>,
    listings: Dict<string, Listing>, gemUnitPrice: real)
    : Result<Dict<int, BadgeRecord>, AggregationError>
    requires n <= |badges.keys|
    decreases n
  {
    if n == 0 then Success(Empty())
    else
      match Aggregated(badges, n - 1, matches, listings, gemUnitPrice)
      case Failure(e) => Failure(e)
      case Success(acc) =>
        match Iteration(badges, n - 1, matches, listings, gemUnitPrice)
        case Failure(e) => Failure(e)
        case Success(None) => Success(acc)
        case Success(Some(record)) => Success(Put(acc, badges.keys[n - 1], record))
  }

  /** The app ids among the first n badges that have a listing hash, in iteration order. */
  function MatchedAppIds(badges: Dict<int, BadgeDetail>, n: nat, matches: Dict<int, Option<string>>): (r: seq<int>)
    requires n <= |badges.keys|
    ensures forall a :: a in r <==> a in badges.keys[..n] && IsMatched(matches, a)
    decreases n
  {
    if n == 0 then []
    else
      var appId := badges.keys[n - 1];
      assert badges.keys[..n] == badges.keys[..n - 1] + [appId];
      MatchedAppIds(badges, n - 1, matches) + (if IsMatched(matches, appId) then [appId] else [])
  }

  /** Once the loop over k badges raises, the loop over more badges raises the same error. */
  lemma {:induction false} AggregatedFailureSticks(
    badges: Dict<int, BadgeDetail>, matches: Dict<int, Option<string>>,
    listings: Dict<string, Listing>, gemUnitPrice: real, k: nat, n: nat, e: AggregationError)
    requires k <= n <= |badges.keys|
    requires Aggregated(badges, k, matches, listings, gemUnitPrice) == Failure(e)
    ensures Aggregated(badges, n, matches, listings, gemUnitPrice) == Failure(e)
    decreases n
  {
    if k < n {
      AggregatedFailureSticks(badges, matches, listings, gemUnitPrice, k, n - 1, e);
    }
  }

  /**
   * The loop over n badges raises exactly when some badge's iteration raises, and
   * then with the error of the first such badge.
   */
  lemma {:induction false} AggregatedFailure(
    badges: Dict<int, BadgeDetail>, n: nat, matches: Dict<int, Option<string>>,
    listings: Dict<string, Listing>, gemUnitPrice: real)
    requires n <= |badges.keys|
    ensures Aggregated(badges, n, matches, listings, gemUnitPrice).Failure? <==>
      exists j :: 0 <= j < n && Iteration(badges, j, matches, listings, gemUnitPrice).Failure?
    ensures Aggregated(badges, n, matches, listings, gemUnitPrice).Failure? ==>
      exists j :: 0 <= j < n
        && Iteration(badges, j, matches, listings, gemUnitPrice)
           == Failure(Aggregated(badges, n, matches, listings, gemUnitPrice).error)
        && forall j' :: 0 <= j' < j ==> Iteration(badges, j', matches, listings, gemUnitPrice).Success?
    decreases n
  {
    if n > 0 {
      AggregatedFailure(badges, n - 1, matches, listings, gemUnitPrice);
    }
  }

  /**
   * A successful loop has one record per matched badge and no other, in the
   * badges' order, and each record is the one its badge's iteration builds.
   */
  lemma {:induction false} AggregatedEntries(
    badges: Dict<int, BadgeDetail>, n: nat, matches: Dict<int, Option<string>>,
    listings: Dict<string, Listing>, gemUnitPrice: real)
    requires n <= |badges.keys|
    requires Aggregated(badges, n, matches, listings, gemUnitPrice).Success?
    ensures Aggregated(badges, n, matches, listings, gemUnitPrice).value.keys == MatchedAppIds(badges, n, matches)
    ensures var out := Aggregated(badges, n, matches, listings, gemUnitPrice).value;
      forall j :: 0 <= j < n && badges.keys[j] in out.items ==>
        Iteration(badges, j, matches, listings, gemUnitPrice) == Success(Some(out.items[badges.keys[j]]))
    decreases n
  {
    if n > 0 {
      AggregatedEntries(badges, n - 1, matches, listings, gemUnitPrice);
      var acc := Aggregated(badges, n - 1, matches, listings, gemUnitPrice).value;
      var appId := badges.keys[n - 1];
      KeyNotBefore(badges, n - 1);
      assert appId !in acc.keys;
    }
  }

  /** `aggregate_badge_data`, given the catalogue and the gem unit price. */
  method AggregateBadgeData(
    badges: Dict<int, BadgeDetail>, badgeMatches: Dict<int, Option<string>>,
    allListings: Dict<string, Listing>, gemUnitPrice: real)
    returns (r: Result<Dict<int, BadgeRecord>, AggregationError>)
    ensures r == Aggregated(badges, |badges.keys|, badgeMatches, allListings, gemUnitPrice)
  {
    var aggregated: Dict<int, BadgeRecord> := Empty();
    var i := 0;
    while i < |badges.keys|
      invariant 0 <= i <= |badges.keys|
      invariant Aggregated(badges, i, badgeMatches, allListings, gemUnitPrice) == Success(aggregated)
    {
      var appId := badges.keys[i];
      var detail := ValueAt(badges, i);
      var listingHash := Get(badgeMatches, appId);
      if listingHash.None? {
        assert Iteration(badges, i, badgeMatches, allListings, gemUnitPrice) == Failure(MissingBadgeMatch(appId));
        AggregatedFailureSticks(
          badges, badgeMatches, allListings, gemUnitPrice, i + 1, |badges.keys|, MissingBadgeMatch(appId));
        return Failure(MissingBadgeMatch(appId));
      }
      if listingHash.value.Some? {
        var listing := Get(allListings, listingHash.value.value);
        if listing.None? {
          assert Iteration(badges, i, badgeMatches, allListings, gemUnitPrice)
              == Failure(MissingListing(listingHash.value.value));
          AggregatedFailureSticks(
            badges, badgeMatches, allListings, gemUnitPrice, i + 1, |badges.keys|,
            MissingListing(listingHash.value.value));
          return Failure(MissingListing(listingHash.value.value));
        }
        var record := BadgeRecord(
          detail.name, listingHash.value.value, detail.gemValue,
          detail.gemValue as real * gemUnitPrice,
          listing.value.sellPrice as real / 100.0,
          detail.nextCreationTime);
        ghost var expected := BadgeRecordOf(appId, detail, badgeMatches, allListings, gemUnitPrice);
        assert expected.Success? && expected.value.Some?;
        assert expected.value.value == record;
        assert Iteration(badges, i, badgeMatches, allListings, gemUnitPrice) == Success(Some(record));
        aggregated := Put(aggregated, appId, record);
      } else {
        assert Iteration(badges, i, badgeMatches, allListings, gemUnitPrice) == Success(None);
      }
      i := i + 1;
    }
    r := Success(aggregated);
  }

  // ---------------------------------------------------------------------------
  // The pipeline of load_aggregated_badge_data

  /**
   * Filtering, matching and aggregating in sequence never raises: every badge has
   * a match entry, and every matched hash was taken from the filtered catalogue.
   */
  lemma PipelineSucceeds(
    badges: Dict<int, BadgeDetail>, allListings: Dict<string, Listing>,
    appIdOf: string -> int, appNameOf: string -> string, gemUnitPrice: real)
    ensures var listings := Filtered(allListings);
      var matches := BadgeMatches(badges, listings.keys, appIdOf, appNameOf);
      Aggregated(badges, |badges.keys|, matches, listings, gemUnitPrice).Success?
  {
    var listings := Filtered(allListings);
    var matches := BadgeMatches(badges, listings.keys, appIdOf, appNameOf);
    AggregatedFailure(badges, |badges.keys|, matches, listings, gemUnitPrice);
    forall j | 0 <= j < |badges.keys|
      ensures Iteration(badges, j, matches, listings, gemUnitPrice).Success?
    {
      assert badges.keys[j] in badges.keys;
    }
  }

  /** `load_aggregated_badge_data`, given the badge details, the catalogue and the gem unit price. */
  method LoadAggregatedBadgeData(
    badges: Dict<int, BadgeDetail>, allListings: Dict<string, Listing>,
    appIdOf: string -> int, appNameOf: string -> string, gemUnitPrice: real)
    returns (aggregated: Dict<int, BadgeRecord>)
    ensures var listings := Filtered(allListings);
      var matches := BadgeMatches(badges, listings.keys, appIdOf, appNameOf);
      Success(aggregated) == Aggregated(badges, |badges.keys|, matches, listings, gemUnitPrice)
    ensures forall a :: a in aggregated.items <==>
      a in badges.items
      && ResolveBadge(Filtered(allListings).keys, appIdOf, appNameOf, a, badges.items[a].name).Some?
    ensures forall a :: a in aggregated.items ==>
      var h := aggregated.items[a].listingHash;
      !IsDubious(h) && h in allListings.keys
  {
    var listings := FilterOutDubiousListingHashes(allListings);
    var badgeMatches := MatchBadgesWithListingHashes(badges, listings, appIdOf, appNameOf);
    var r := AggregateBadgeData(badges, badgeMatches, listings, gemUnitPrice);
    PipelineSucceeds(badges, allListings, appIdOf, appNameOf, gemUnitPrice);
    aggregated := r.value;
    var n := |badges.keys|;
    AggregatedEntries(badges, n, badgeMatches, listings, gemUnitPrice);
    assert badges.keys[..n] == badges.keys;
    forall a | a in aggregated.items
      ensures !IsDubious(aggregated.items[a].listingHash) && aggregated.items[a].listingHash in allListings.keys
    {
      assert a in MatchedAppIds(badges, n, badgeMatches);
      var j :| 0 <= j < n && badges.keys[j] == a;
      assert Iteration(badges, j, badgeMatches, listings, gemUnitPrice) == Success(Some(aggregated.items[a]));
      assert Get(listings, aggregated.items[a].listingHash).Some?;
    }
  }

  /** A catalogue holding only a genuine booster-pack hash is left as it is by filtering. */
  lemma GenuineCatalogueKept(listingHash: string, listing: Listing)
    requires '#' !in listingHash
    ensures var catalogue: Dict<string, Listing> := OrderedMap([listingHash], map[listingHash := listing]);
      Filtered(catalogue) == catalogue
  {
    var catalogue: Dict<string, Listing> := OrderedMap([listingHash], map[listingHash := listing]);
    FirstCharAbsent(DUBIOUS_MARKER, listingHash);
    assert NonDubious([listingHash]) == [listingHash] + NonDubious([]) by {
      assert [listingHash][1..] == [];
    }
    Extensional(Filtered(catalogue), catalogue);
  }

  /** In the worked pipeline, badge 10 is matched to the hash "10-A". */
  lemma ExampleMatch(
    badges: Dict<int, BadgeDetail>, hashes: seq<string>, appIdOf: string -> int, appNameOf: string -> string)
    requires badges == OrderedMap([10], map[10 := BadgeDetail("A", 5, None)]) && hashes == ["10-A"]
    requires appIdOf("10-A") == 10
    ensures Get(BadgeMatches(badges, hashes, appIdOf, appNameOf), 10) == Some(Some("10-A"))
  {
    assert LastWith(hashes, appIdOf, 10) == Some("10-A");
  }

  /** In the worked pipeline, the one iteration records 5 gems at 0.1 (0.5) against 100 cents (1.0). */
  lemma ExampleIteration(
    badges: Dict<int, BadgeDetail>, matches: Dict<int, Option<string>>, listings: Dict<string, Listing>)
    requires badges == OrderedMap([10], map[10 := BadgeDetail("A", 5, None)])
    requires listings == OrderedMap(["10-A"], map["10-A" := Listing(100)])
    requires Get(matches, 10) == Some(Some("10-A"))
    ensures Iteration(badges, 0, matches, listings, 0.1) == Success(Some(BadgeRecord("A", "10-A", 5, 0.5, 1.0, None)))
  {
  }

  /** Recording one entry into the empty result gives the one-entry dict. */
  lemma SingleRecord(record: BadgeRecord)
    ensures Put(Empty(), 10, record) == OrderedMap([10], map[10 := record])
  {
    var empty: Dict<int, BadgeRecord> := Empty();
    assert empty.keys + [10] == [10];
  }

  /**
   * A worked pipeline: app 10 "A" needs 5 gems at 0.1 each, and its booster pack
   * "10-A" sells for 100 cents; the table has one row, costing 0.5 and selling for 1.0.
   */
  lemma PipelineExample(appIdOf: string -> int, appNameOf: string -> string)
    requires appIdOf("10-A") == 10
    ensures var badges: Dict<int, BadgeDetail> := OrderedMap([10], map[10 := BadgeDetail("A", 5, None)]);
      var allListings: Dict<string, Listing> := OrderedMap(["10-A"], map["10-A" := Listing(100)]);
      var listings := Filtered(allListings);
      var matches := BadgeMatches(badges, listings.keys, appIdOf, appNameOf);
      Aggregated(badges, 1, matches, listings, 0.1)
      == Success(OrderedMap([10], map[10 := BadgeRecord("A", "10-A", 5, 0.5, 1.0, None)]))
  {
    var badges: Dict<int, BadgeDetail> := OrderedMap([10], map[10 := BadgeDetail("A", 5, None)]);
    var allListings: Dict<string, Listing> := OrderedMap(["10-A"], map["10-A" := Listing(100)]);
    GenuineCatalogueKept("10-A", Listing(100));
    var matches := BadgeMatches(badges, allListings.keys, appIdOf, appNameOf);
    ExampleMatch(badges, allListings.keys, appIdOf, appNameOf);
    ExampleIteration(badges, matches, allListings);
    SingleRecord(BadgeRecord("A", "10-A", 5, 0.5, 1.0, None));
  }
}
