/**
 * The inventory side (inventory_utils.py): the inventory URL, the query
 * parameters of the booster-pack creation and market-sell requests, the cookie
 * checks made before either request is sent, and the cross-reference from a
 * listing hash to the asset id of an owned item.
 *
 * The requests themselves are not sent here: `CreateBoosterPackRequest` and
 * `SellBoosterPackRequest` stop at the request that would be sent. JSON scalars
 * of the inventory snapshot are kept as the strings the model compares and copies.
 */
module InventoryUtils {
  import opened Wrappers
  import opened Dicts
  import opened Text

  const INVENTORY_URL_PREFIX: string := "https://steamcommunity.com/profiles/"
  const DEFAULT_APP_ID: int := 753
  const DEFAULT_CONTEXT_ID: int := 6
  const BOOSTER_PACK_CREATION_URL: string := "https://steamcommunity.com/tradingcards/ajaxcreatebooster/"
  const MARKET_SELL_URL: string := "https://steamcommunity.com/market/sellitem/"

  /** What the module raises: a KeyError on a missing key, an AssertionError when there is no cookie. */
  datatype Failure = MissingKey(key: string) | MissingCookie

  /** An authenticated GET request: where it goes, its query parameters, its cookies. */
  datatype Request = Request(url: string, params: Dict<string, string>, cookies: Dict<string, string>)

  /** An entry of `rgDescriptions`. */
  datatype Description = Description(
    marketHashName: string, appId: string, classId: string, instanceId: string, kind: string, marketable: string)

  /** An entry of `rgInventory`. */
  datatype Asset = Asset(id: string, classId: string, instanceId: string, amount: string, pos: string)

  /** The parsed inventory JSON: its `rgDescriptions` and `rgInventory` dicts. */
  datatype Inventory = Inventory(descriptions: Dict<string, Description>, assets: Dict<string, Asset>)

  // ---------------------------------------------------------------------------
  // The inventory URL

  /** `get_steam_inventory_url(profile_id, app_id, context_id)` for a given profile id. */
  function InventoryUrl(profileId: string, appId: int, contextId: int): (r: string)
    ensures INVENTORY_URL_PREFIX + profileId <= r
    ensures |r| > 0 && r[|r| - 1] == '/'
  {
    INVENTORY_URL_PREFIX + profileId + "/inventory/json/" + IntToString(appId) + "/" + IntToString(contextId) + "/"
  }

  /** With the default app id and context id, the URL ends in "/753/6/". */
  lemma InventoryUrlDefaults(profileId: string)
    ensures InventoryUrl(profileId, DEFAULT_APP_ID, DEFAULT_CONTEXT_ID)
         == INVENTORY_URL_PREFIX + profileId + "/inventory/json/753/6/"
  {
    assert IntToString(753) == "753" by {
      assert NatToDecimal(75) == NatToDecimal(7) + [DigitChar(5)];
    }
    assert IntToString(6) == "6";
  }

  /** In x + "/" + y with no slash in y, the slash after x is the last one. */
  lemma LastSlashAt(x: string, y: string)
    requires '/' !in y
    ensures (x + "/" + y)[|x|] == '/'
    ensures forall k :: |x| < k < |x + "/" + y| ==> (x + "/" + y)[k] != '/'
  {
    var l := x + "/" + y;
    forall k | |x| < k < |l|
      ensures l[k] != '/'
    {
      assert l[k] == y[k - |x| - 1];
      assert y[k - |x| - 1] in y;
    }
  }

  /** The part after the last slash has none: the last slash separates x from y. */
  lemma SlashSplitLast(x: string, y: string, x': string, y': string)
    requires '/' !in y && '/' !in y'
    requires x + "/" + y == x' + "/" + y'
    ensures x == x' && y == y'
  {
    var l := x + "/" + y;
    LastSlashAt(x, y);
    LastSlashAt(x', y');
    assert |x| == |x'|;
    assert x == l[..|x|] && x' == l[..|x'|];
    assert y == l[|x| + 1..] && y' == l[|x'| + 1..];
  }

  lemma NoSlashInNumber(i: int)
    ensures '/' !in IntToString(i)
  {
  }

  lemma CancelPrefix(a: string, x: string, y: string)
    requires a + x == a + y
    ensures x == y
  {
    assert x == (a + x)[|a|..] && y == (a + y)[|a|..];
  }

  lemma CancelSuffix(x: string, y: string, b: string)
    requires x + b == y + b
    ensures x == y
  {
    assert x == (x + b)[..|x|] && y == (y + b)[..|y|];
  }

  /** The URL read from the right: a head, the app id and the context id, each followed by a slash. */
  lemma InventoryUrlSegments(p: string, a: int, c: int)
    ensures InventoryUrl(p, a, c)
         == INVENTORY_URL_PREFIX + (p + "/inventory/json") + "/" + IntToString(a) + "/" + IntToString(c) + "/"
  {
    assert "/inventory/json/" == "/inventory/json" + "/";
  }

  /** Strips the head, the app id and the context id off the right of two equal URLs. */
  lemma UrlSegmentsInjective(head: string, sa: string, sc: string, head': string, sa': string, sc': string)
    requires '/' !in sa && '/' !in sc && '/' !in sa' && '/' !in sc'
    requires head + "/" + sa + "/" + sc + "/" == head' + "/" + sa' + "/" + sc' + "/"
    ensures head == head' && sa == sa' && sc == sc'
  {
    CancelSuffix(head + "/" + sa + "/" + sc, head' + "/" + sa' + "/" + sc', "/");
    SlashSplitLast(head + "/" + sa, sc, head' + "/" + sa', sc');
    SlashSplitLast(head, sa, head', sa');
  }

  /**
   * Different profiles, app ids or context ids give different inventory URLs.
   * Read from the right: the context id and the app id are the last two
   * slash-free segments, and what precedes them fixes the profile id.
   */
  lemma InventoryUrlInjective(p: string, a: int, c: int, p': string, a': int, c': int)
    requires InventoryUrl(p, a, c) == InventoryUrl(p', a', c')
    ensures p == p' && a == a' && c == c'
  {
    NoSlashInNumber(a); NoSlashInNumber(c); NoSlashInNumber(a'); NoSlashInNumber(c');
    InventoryUrlSegments(p, a, c);
    InventoryUrlSegments(p', a', c');
    UrlSegmentsInjective(INVENTORY_URL_PREFIX + (p + "/inventory/json"), IntToString(a), IntToString(c),
                         INVENTORY_URL_PREFIX + (p' + "/inventory/json"), IntToString(a'), IntToString(c'));
    CancelPrefix(INVENTORY_URL_PREFIX, p + "/inventory/json", p' + "/inventory/json");
    CancelSuffix(p, p', "/inventory/json");
    IntToStringInjective(a, a');
    IntToStringInjective(c, c');
  }

  // ---------------------------------------------------------------------------
  // Cookies and request parameters

  /** `get_session_id(cookie)` */
  function GetSessionId(cookie: Dict<string, string>): (r: Result<string, Failure>)
    ensures r.Success? <==> "sessionid" in cookie.keys
    ensures r.Success? ==> Get(cookie, "sessionid") == Some(r.value)
    ensures r.Failure? ==> r.error == MissingKey("sessionid")
  {
    var sessionId := Get(cookie, "sessionid");
    if sessionId.Some? then Success(sessionId.value) else Failure(MissingKey("sessionid"))
  }

  /** The booster-pack creation parameters as they are filled in, keys in insertion order. */
  function CreationFields(appId: int, sessionId: string): OrderedMap<string, string>
  {
    OrderedMap(["sessionid", "appid", "series", "tradability_preference"],
      map["sessionid" := sessionId, "appid" := IntToString(appId), "series" := "1", "tradability_preference" := "2"])
  }

  /** Its four parameter names are distinct, and they are exactly the names it maps. */
  lemma CreationFieldsValid(appId: int, sessionId: string)
    ensures CreationFields(appId, sessionId).Valid()
  {
    var f := CreationFields(appId, sessionId);
    assert Distinct(f.keys);
    assert f.items.Keys == set k | k in f.keys;
  }

  /** `get_booster_pack_creation_parameters(app_id, session_id)` */
  function BoosterPackCreationParameters(appId: int, sessionId: string): (params: Dict<string, string>)
    ensures params.keys == ["sessionid", "appid", "series", "tradability_preference"]
    ensures Get(params, "sessionid") == Some(sessionId) && Get(params, "appid") == Some(IntToString(appId))
    ensures Get(params, "series") == Some("1") && Get(params, "tradability_preference") == Some("2")
  {
    CreationFieldsValid(appId, sessionId);
    CreationFields(appId, sessionId)
  }

  /** The parameters are what assigning the four values in turn into `dict()` produces. */
  lemma CreationParametersAssigned(appId: int, sessionId: string)
    ensures var params := BoosterPackCreationParameters(appId, sessionId);
      AssignAll(Empty(), params.keys, [sessionId, IntToString(appId), "1", "2"]) == params
  {
    var params := BoosterPackCreationParameters(appId, sessionId);
    var values := [sessionId, IntToString(appId), "1", "2"];
    forall i | 0 <= i < |params.keys|
      ensures Get(params, params.keys[i]) == Some(values[i])
    {
    }
    AssignedInTurn(params, values);
  }

  /** The "appid" parameter reads back as the app id it was made from. */
  lemma CreationParametersCarryAppId(appId: int, sessionId: string)
    ensures var params := BoosterPackCreationParameters(appId, sessionId);
      Get(params, "appid").Some? && ParseInt(Get(params, "appid").value) == Some(appId)
  {
    ParseIntToString(appId);
  }

  /** The market-sell parameters as `get_market_sell_parameters` fills them in, keys in insertion order. */
  function SellFields(assetId: string, priceInCents: int, sessionId: string): OrderedMap<string, string>
  {
    OrderedMap(["sessionid", "appid", "contextid", "asset_id", "amount", "price"],
      map["sessionid" := sessionId, "appid" := "753", "contextid" := "6", "asset_id" := assetId,
          "amount" := "1", "price" := IntToString(priceInCents)])
  }

  /** Its six parameter names are distinct, and they are exactly the names it maps. */
  lemma SellFieldsValid(assetId: string, priceInCents: int, sessionId: string)
    ensures SellFields(assetId, priceInCents, sessionId).Valid()
  {
    var f := SellFields(assetId, priceInCents, sessionId);
    assert Distinct(f.keys);
    assert f.items.Keys == set k | k in f.keys;
  }

  /** `get_market_sell_parameters(asset_id, price_in_cents, session_id)` */
  function MarketSellParameters(assetId: string, priceInCents: int, sessionId: string): (params: Dict<string, string>)
    ensures params.keys == ["sessionid", "appid", "contextid", "asset_id", "amount", "price"]
    ensures Get(params, "sessionid") == Some(sessionId) && Get(params, "asset_id") == Some(assetId)
    ensures Get(params, "appid") == Some("753") && Get(params, "contextid") == Some("6")
    ensures Get(params, "amount") == Some("1") && Get(params, "price") == Some(IntToString(priceInCents))
  {
    SellFieldsValid(assetId, priceInCents, sessionId);
    SellFields(assetId, priceInCents, sessionId)
  }

  /** The parameters are what assigning the six values in turn into `dict()` produces. */
  lemma SellParametersAssigned(assetId: string, priceInCents: int, sessionId: string)
    ensures var params := MarketSellParameters(assetId, priceInCents, sessionId);
      AssignAll(Empty(), params.keys, [sessionId, "753", "6", assetId, "1", IntToString(priceInCents)]) == params
  {
    var params := MarketSellParameters(assetId, priceInCents, sessionId);
    var values := [sessionId, "753", "6", assetId, "1", IntToString(priceInCents)];
    forall i | 0 <= i < |params.keys|
      ensures Get(params, params.keys[i]) == Some(values[i])
    {
    }
    AssignedInTurn(params, values);
  }

  /** The "price" parameter reads back as the price in cents it was made from. */
  lemma SellParametersCarryPrice(assetId: string, priceInCents: int, sessionId: string)
    ensures var params := MarketSellParameters(assetId, priceInCents, sessionId);
      Get(params, "price").Some? && ParseInt(Get(params, "price").value) == Some(priceInCents)
  {
    ParseIntToString(priceInCents);
  }

  /**
   * `create_booster_pack(app_id)` up to the request it sends: an empty cookie
   * raises AssertionError, a cookie without a session id raises KeyError.
   */
  function CreateBoosterPackRequest(cookie: Dict<string, string>, appId: int): (r: Result<Request, Failure>)
    ensures r == Failure(MissingCookie) <==> Size(cookie) == 0
    ensures r == Failure(MissingKey("sessionid")) <==> Size(cookie) > 0 && "sessionid" !in cookie.keys
    ensures r.Success? <==> "sessionid" in cookie.keys
    ensures r.Success? ==>
      && r.value.url == BOOSTER_PACK_CREATION_URL
      && r.value.cookies == cookie
      && Get(r.value.params, "sessionid") == Get(cookie, "sessionid")
      && Get(r.value.params, "appid").Some? && ParseInt(Get(r.value.params, "appid").value) == Some(appId)
      && r.value.params == BoosterPackCreationParameters(appId, Get(cookie, "sessionid").value)
  {
    if Size(cookie) == 0 then Failure(MissingCookie)
    else
      var sessionId := GetSessionId(cookie);
      if sessionId.Failure? then Failure(sessionId.error)
      else
        CreationParametersCarryAppId(appId, sessionId.value);
        Success(Request(BOOSTER_PACK_CREATION_URL, BoosterPackCreationParameters(appId, sessionId.value), cookie))
  }

  /**
   * `sell_booster_pack(asset_id, price_in_cents)` up to the request it sends,
   * with the same two failures as CreateBoosterPackRequest.
   */
  function SellBoosterPackRequest(cookie: Dict<string, string>, assetId: string, priceInCents: int)
    : (r: Result<Request, Failure>)
    ensures r == Failure(MissingCookie) <==> Size(cookie) == 0
    ensures r == Failure(MissingKey("sessionid")) <==> Size(cookie) > 0 && "sessionid" !in cookie.keys
    ensures r.Success? <==> "sessionid" in cookie.keys
    ensures r.Success? ==>
      && r.value.url == MARKET_SELL_URL
      && r.value.cookies == cookie
      && Get(r.value.params, "sessionid") == Get(cookie, "sessionid")
      && Get(r.value.params, "asset_id") == Some(assetId)
      && Get(r.value.params, "price").Some? && ParseInt(Get(r.value.params, "price").value) == Some(priceInCents)
      && r.value.params == MarketSellParameters(assetId, priceInCents, Get(cookie, "sessionid").value)
  {
    if Size(cookie) == 0 then Failure(MissingCookie)
    else
      var sessionId := GetSessionId(cookie);
      if sessionId.Failure? then Failure(sessionId.error)
      else
        SellParametersCarryPrice(assetId, priceInCents, sessionId.value);
        Success(Request(MARKET_SELL_URL, MarketSellParameters(assetId, priceInCents, sessionId.value), cookie))
  }

  // ---------------------------------------------------------------------------
  // From a listing hash to an asset id

  /** Index j holds the first description, in iteration order, named listingHash. */
  ghost predicate IsFirstDescribed(descriptions: Dict<string, Description>, listingHash: string, j: int)
  {
    0 <= j < |descriptions.keys| && ValueAt(descriptions, j).marketHashName == listingHash
    && forall j' :: 0 <= j' < j ==> ValueAt(descriptions, j').marketHashName != listingHash
  }

  /** The asset at index k has the given class id and instance id. */
  predicate OfClass(assets: Dict<string, Asset>, k: int, classId: string, instanceId: string)
    requires 0 <= k < |assets.keys|
  {
    ValueAt(assets, k).classId == classId && ValueAt(assets, k).instanceId == instanceId
  }

  /** Index k holds the first asset, in iteration order, with the given class id and instance id. */
  ghost predicate IsFirstOfClass(assets: Dict<string, Asset>, classId: string, instanceId: string, k: int)
  {
    0 <= k < |assets.keys| && OfClass(assets, k, classId, instanceId)
    && forall k' :: 0 <= k' < k ==> !OfClass(assets, k', classId, instanceId)
  }

  /** The first scan: the first description from index i on whose market hash name is listingHash. */
  function FindDescription(descriptions: Dict<string, Description>, listingHash: string, i: nat): (r: Option<nat>)
    requires i <= |descriptions.keys|
    ensures r.Some? ==>
      i <= r.value < |descriptions.keys| && ValueAt(descriptions, r.value).marketHashName == listingHash
      && forall j :: i <= j < r.value ==> ValueAt(descriptions, j).marketHashName != listingHash
    ensures r.None? ==>
      forall j :: i <= j < |descriptions.keys| ==> ValueAt(descriptions, j).marketHashName != listingHash
    decreases |descriptions.keys| - i
  {
    if i == |descriptions.keys| then None
    else if ValueAt(descriptions, i).marketHashName == listingHash then Some(i)
    else FindDescription(descriptions, listingHash, i + 1)
  }

  /** The second scan: the first asset from index i on with the given class id and instance id. */
  function FindAsset(assets: Dict<string, Asset>, classId: string, instanceId: string, i: nat): (r: Option<nat>)
    requires i <= |assets.keys|
    ensures r.Some? ==>
      i <= r.value < |assets.keys| && OfClass(assets, r.value, classId, instanceId)
      && forall k :: i <= k < r.value ==> !OfClass(assets, k, classId, instanceId)
    ensures r.None? ==> forall k :: i <= k < |assets.keys| ==> !OfClass(assets, k, classId, instanceId)
    decreases |assets.keys| - i
  {
    if i == |assets.keys| then None
    else if OfClass(assets, i, classId, instanceId) then Some(i)
    else FindAsset(assets, classId, instanceId, i + 1)
  }

  /**
   * What `retrieve_asset_id` returns or raises. Without a matching description
   * the matched element has no 'classid', so the second scan raises KeyError on
   * its first entry; only an empty `rgInventory` lets it return None.
   */
  function AssetIdOf(listingHash: string, inventory: Inventory): Result<Option<string>, Failure>
  {
    var found := FindDescription(inventory.descriptions, listingHash, 0);
    if found.None? then
      if Size(inventory.assets) == 0 then Success(None) else Failure(MissingKey("classid"))
    else
      var description := ValueAt(inventory.descriptions, found.value);
      var asset := FindAsset(inventory.assets, description.classId, description.instanceId, 0);
      if asset.None? then Success(None) else Success(Some(ValueAt(inventory.assets, asset.value).id))
  }

  /** The first scan stops at the first description named listingHash. */
  lemma {:induction false} FindDescriptionFirst(
    descriptions: Dict<string, Description>, listingHash: string, i: nat, j: int)
    requires i <= j && IsFirstDescribed(descriptions, listingHash, j)
    ensures FindDescription(descriptions, listingHash, i) == Some(j)
    decreases j - i
  {
    if i < j {
      FindDescriptionFirst(descriptions, listingHash, i + 1, j);
    }
  }

  /** The second scan stops at the first asset of the class. */
  lemma {:induction false} FindAssetFirst(
    assets: Dict<string, Asset>, classId: string, instanceId: string, i: nat, k: int)
    requires i <= k && IsFirstOfClass(assets, classId, instanceId, k)
    ensures FindAsset(assets, classId, instanceId, i) == Some(k)
    decreases k - i
  {
    if i < k {
      FindAssetFirst(assets, classId, instanceId, i + 1, k);
    }
  }

  /**
   * With a description named listingHash, the result is the id of the first asset
   * sharing the first such description's class id and instance id, or None when no
   * asset does; it never raises.
   */
  lemma AssetIdWhenDescribed(listingHash: string, inventory: Inventory, j: int)
    requires IsFirstDescribed(inventory.descriptions, listingHash, j)
    ensures var d := ValueAt(inventory.descriptions, j);
      && (forall k :: IsFirstOfClass(inventory.assets, d.classId, d.instanceId, k) ==>
            AssetIdOf(listingHash, inventory) == Success(Some(ValueAt(inventory.assets, k).id)))
      && ((forall k :: 0 <= k < |inventory.assets.keys| ==> !OfClass(inventory.assets, k, d.classId, d.instanceId))
          ==> AssetIdOf(listingHash, inventory) == Success(None))
  {
    FindDescriptionFirst(inventory.descriptions, listingHash, 0, j);
    var d := ValueAt(inventory.descriptions, j);
    forall k | IsFirstOfClass(inventory.assets, d.classId, d.instanceId, k)
      ensures FindAsset(inventory.assets, d.classId, d.instanceId, 0) == Some(k)
    {
      FindAssetFirst(inventory.assets, d.classId, d.instanceId, 0, k);
    }
  }

  /**
   * Without a description named listingHash, the second scan raises KeyError on
   * any non-empty `rgInventory`, and the result is None only for an empty one.
   */
  lemma AssetIdWhenUndescribed(listingHash: string, inventory: Inventory)
    requires forall j :: 0 <= j < |inventory.descriptions.keys| ==>
      ValueAt(inventory.descriptions, j).marketHashName != listingHash
    ensures Size(inventory.assets) == 0 ==> AssetIdOf(listingHash, inventory) == Success(None)
    ensures Size(inventory.assets) > 0 ==> AssetIdOf(listingHash, inventory) == Failure(MissingKey("classid"))
  {
  }

  /**
   * The lookup as evidently intended: None when no description is named
   * listingHash, instead of the KeyError the second scan raises on a non-empty
   * `rgInventory`; otherwise the same result as the code.
   */
  function IntendedAssetId(listingHash: string, inventory: Inventory): (r: Option<string>)
    ensures (forall j :: 0 <= j < |inventory.descriptions.keys| ==>
               ValueAt(inventory.descriptions, j).marketHashName != listingHash) ==> r == None
    ensures AssetIdOf(listingHash, inventory).Success? ==> r == AssetIdOf(listingHash, inventory).value
    ensures r.Some? ==> exists k :: 0 <= k < |inventory.assets.keys| && ValueAt(inventory.assets, k).id == r.value
  {
    var found := FindDescription(inventory.descriptions, listingHash, 0);
    if found.None? then None
    else
      var description := ValueAt(inventory.descriptions, found.value);
      var asset := FindAsset(inventory.assets, description.classId, description.instanceId, 0);
      if asset.None? then None else Some(ValueAt(inventory.assets, asset.value).id)
  }

  /** The input that shows the difference: no descriptions and a single asset. */
  lemma UndescribedLookupRaises(asset: Asset)
    ensures var inventory := Inventory(OrderedMap([], map[]), OrderedMap(["1"], map["1" := asset]));
      AssetIdOf("211820-Starbound Booster Pack", inventory) == Failure(MissingKey("classid"))
      && IntendedAssetId("211820-Starbound Booster Pack", inventory) == None
  {
  }

  /**
   * Only the first description named listingHash is used: descriptions after it,
   * same-named or not, never change the result.
   */
  lemma LaterDescriptionsIgnored(listingHash: string, inventory: Inventory, other: Inventory, j: int)
    requires IsFirstDescribed(inventory.descriptions, listingHash, j)
    requires j < |other.descriptions.keys|
    requires forall j' :: 0 <= j' <= j ==> ValueAt(other.descriptions, j') == ValueAt(inventory.descriptions, j')
    requires other.assets == inventory.assets
    ensures AssetIdOf(listingHash, other) == AssetIdOf(listingHash, inventory)
  {
    assert IsFirstDescribed(other.descriptions, listingHash, j);
    FindDescriptionFirst(inventory.descriptions, listingHash, 0, j);
    FindDescriptionFirst(other.descriptions, listingHash, 0, j);
  }

  /** What the second scan and the final lookup read of the matched element. */
  ghost predicate MatchedElementOf(matched: Dict<string, string>, d: Description)
  {
    Get(matched, "classid") == Some(d.classId) && Get(matched, "instanceid") == Some(d.instanceId)
    && Get(matched, "id") == None
  }

  /** The matched element after the first scan's six assignments, keys in insertion order. */
  function DescriptionFields(d: Description): OrderedMap<string, string>
  {
    OrderedMap(["market_hash_name", "appid", "classid", "instanceid", "type", "marketable"],
      map["market_hash_name" := d.marketHashName, "appid" := d.appId, "classid" := d.classId,
          "instanceid" := d.instanceId, "type" := d.kind, "marketable" := d.marketable])
  }

  /** Its six field names are distinct, and they are exactly the names it maps. */
  lemma DescriptionFieldsValid(d: Description)
    ensures DescriptionFields(d).Valid()
  {
    var f := DescriptionFields(d);
    assert Distinct(f.keys);
    assert f.items.Keys == set k | k in f.keys;
  }

  /**
   * The six assignments the first scan makes into the empty matched element: it
   * ends up with the description's fields under their JSON names, and no "id".
   */
  function CopyDescription(d: Description): (matched: Dict<string, string>)
    ensures matched.keys == ["market_hash_name", "appid", "classid", "instanceid", "type", "marketable"]
    ensures Get(matched, "market_hash_name") == Some(d.marketHashName) && Get(matched, "appid") == Some(d.appId)
    ensures Get(matched, "type") == Some(d.kind) && Get(matched, "marketable") == Some(d.marketable)
    ensures MatchedElementOf(matched, d)
  {
    DescriptionFieldsValid(d);
    DescriptionFields(d)
  }

  /** The matched element is what assigning the six fields in turn into `dict()` produces. */
  lemma CopyDescriptionAssigned(d: Description)
    ensures var matched := CopyDescription(d);
      AssignAll(Empty(), matched.keys, [d.marketHashName, d.appId, d.classId, d.instanceId, d.kind, d.marketable]) == matched
  {
    var matched := CopyDescription(d);
    var values := [d.marketHashName, d.appId, d.classId, d.instanceId, d.kind, d.marketable];
    forall i | 0 <= i < |matched.keys|
      ensures Get(matched, matched.keys[i]) == Some(values[i])
    {
    }
    AssignedInTurn(matched, values);
  }

  /** The three assignments the second scan makes when it finds asset a. */
  lemma SecondScanFields(matched: Dict<string, string>, a: Asset)
    ensures Get(Put(Put(Put(matched, "id", a.id), "amount", a.amount), "pos", a.pos), "id") == Some(a.id)
  {
    var m1 := Put(matched, "id", a.id);
    PutGet(matched, "id", a.id);
    var m2 := Put(m1, "amount", a.amount);
    PutGet(m1, "amount", a.amount);
    PutGet(m2, "pos", a.pos);
  }

  /** The first loop of `retrieve_asset_id`: it copies the first description named listingHash. */
  method MatchDescription(descriptions: Dict<string, Description>, listingHash: string)
    returns (matched: Dict<string, string>)
    ensures var found := FindDescription(descriptions, listingHash, 0);
      && (found.None? ==> matched == Empty())
      && (found.Some? ==> matched == CopyDescription(ValueAt(descriptions, found.value)))
  {
    matched := Empty();
    var i := 0;
    while i < |descriptions.keys|
      invariant 0 <= i <= |descriptions.keys|
      invariant FindDescription(descriptions, listingHash, 0) == FindDescription(descriptions, listingHash, i)
      invariant matched == Empty()
    {
      var d := ValueAt(descriptions, i);
      if d.marketHashName == listingHash {
        matched := CopyDescription(d);
        return;
      }
      i := i + 1;
    }
  }

  /**
   * The second loop of `retrieve_asset_id` and its closing lookup of "id", from the
   * element the first loop left: empty when no description matched (wanted is None),
   * otherwise one that carries the wanted description's class and no "id" yet.
   */
  method MatchAsset(assets: Dict<string, Asset>, matched: Dict<string, string>, ghost wanted: Option<Description>)
    returns (r: Result<Option<string>, Failure>)
    requires wanted.None? ==> matched == Empty()
    requires wanted.Some? ==> MatchedElementOf(matched, wanted.value)
    ensures wanted.None? ==> r == if Size(assets) == 0 then Success(None) else Failure(MissingKey("classid"))
    ensures wanted.Some? ==>
      var asset := FindAsset(assets, wanted.value.classId, wanted.value.instanceId, 0);
      r == if asset.None? then Success(None) else Success(Some(ValueAt(assets, asset.value).id))
  {
    var element := matched;
    var k := 0;
    while k < |assets.keys|
      invariant 0 <= k <= |assets.keys|
      invariant element == matched
      invariant wanted.None? ==> k == 0
      invariant wanted.Some? ==>
        FindAsset(assets, wanted.value.classId, wanted.value.instanceId, 0)
        == FindAsset(assets, wanted.value.classId, wanted.value.instanceId, k)
    {
      var a := ValueAt(assets, k);
      var classId := Get(element, "classid");
      if classId.None? {
        return Failure(MissingKey("classid"));
      }
      if a.classId == classId.value && Some(a.instanceId) == Get(element, "instanceid") {
        assert FindAsset(assets, wanted.value.classId, wanted.value.instanceId, k) == Some(k);
        element := Put(element, "id", a.id);
        element := Put(element, "amount", a.amount);
        element := Put(element, "pos", a.pos);
        SecondScanFields(matched, a);
        return Success(Get(element, "id"));
      }
      k := k + 1;
    }
    r := Success(Get(element, "id"));
  }

  /** `retrieve_asset_id(listing_hash, steam_inventory)` */
  method RetrieveAssetId(listingHash: string, inventory: Inventory) returns (r: Result<Option<string>, Failure>)
    ensures r == AssetIdOf(listingHash, inventory)
  {
    var matched := MatchDescription(inventory.descriptions, listingHash);
    ghost var found := FindDescription(inventory.descriptions, listingHash, 0);
    ghost var wanted := if found.None? then None else Some(ValueAt(inventory.descriptions, found.value));
    r := MatchAsset(inventory.assets, matched, wanted);
  }
}
