# Steam market: badge matching and inventory helpers, modelled in Dafny

This project models two modules of a tool that decides whether crafting a Steam
booster pack from gems pays off:

- `market_utils.py` works on the booster-pack listing catalogue. It does three things:
  - it drops "dubious" listing hashes, meaning hashes that contain the marker
    `#Economy_TradingCards_`;
  - it matches each craftable badge with a listing hash, by app id first and by
    app name as a fallback;
  - it aggregates each matched badge's gem cost against the pack's sell price.
- `inventory_utils.py` does four things:
  - it builds the inventory URL;
  - it builds the query parameters of the booster-pack creation and market-sell
    requests;
  - it checks the cookie before either request is sent;
  - it cross-references a listing hash to the asset id of an owned item.

Files:
- `wrappers.dfy`: `Option` and `Result`.
- `dicts.dfy`: Python dicts as an insertion order plus a map.
  - Assigning a present key keeps its place; assigning a new key appends it.
  - `Get` returns `None` where Python raises `KeyError`.
- `text.dfy`: substring search, which is Python's `in` on strings, and decimal
  `str()` of an integer with its parse-back.
- `market_utils.dfy`: module `MarketUtils`.
- `inventory_utils.dfy`: module `InventoryUtils`.

Modelling choices:
- Loops in the source are methods with `while` loops. Each method is proved
  equal to a specification function, such as `Filtered`, `BadgeMatches`,
  `Aggregated` or `AssetIdOf`. Lemmas then state the properties of those functions.
- Raised exceptions become `Failure` values:
  - `AggregationError.MissingBadgeMatch` and `MissingListing` are the two
    `KeyError`s of the aggregation loop;
  - `Failure.MissingKey` is a `KeyError`;
  - `Failure.MissingCookie` is the `AssertionError` on an empty cookie.
- Collaborators outside these files are parameters:
  - `appIdOf` and `appNameOf` stand for `convert_listing_hash_to_app_id` and
    `convert_listing_hash_to_app_name`;
  - `gemUnitPrice` stands for `get_gem_price()`;
  - the badge details, the listing catalogue, the cookie and the inventory
    snapshot are arguments.
- The parameter builders are dict literals, each proved equal to assigning its
  values in turn into an empty dict (`Dicts.AssignAll`).
- Prices are exact reals:
  - `gemPrice` is `gemValue * gemUnitPrice`;
  - `sellPrice` is the price in cents divided by 100.

## Model

| member | source | states |
|---|---|---|
| MarketUtils.IsDubious | market_utils.py:12-17 | a hash is dubious exactly when the marker `#Economy_TradingCards_` occurs in it as a substring |
| MarketUtils.MarkerMakesDubious | market_utils.py:22-24 | every hash with the marker somewhere inside it is dubious, whatever precedes or follows it |
| MarketUtils.GenuineExample | market_utils.py:12-17 | a plain booster-pack hash such as "211820-Starbound Booster Pack" is not dubious |
| MarketUtils.NonDubious | market_utils.py:28-34 | the kept hashes are exactly the catalogue's hashes that are not dubious; distinct hashes stay distinct |
| MarketUtils.Filtered | market_utils.py:26-34 | in the filtered catalogue a hash maps to its original listing unchanged if it is not dubious, and is absent if it is |
| MarketUtils.NonDubiousAppend | market_utils.py:28-34 | filtering keeps the relative order of the kept hashes (it distributes over concatenation) |
| MarketUtils.NonDubiousIdempotent | market_utils.py:28-34 | filtering an already filtered list of hashes changes nothing |
| MarketUtils.FilteredIdempotent | market_utils.py:20-43 | filtering a filtered catalogue returns the same catalogue |
| MarketUtils.OmittedCount | market_utils.py:39-41 | kept plus omitted equals the catalogue size, and the omitted hashes are exactly the dubious ones |
| MarketUtils.FilterOutDubiousListingHashes | market_utils.py:20-43 | the loop copying non-dubious entries into a fresh dict yields exactly `Filtered` of the catalogue, order included |
| MarketUtils.LastWith | market_utils.py:65-72 | a lookup table filled over the hashes holds, at a key, the last hash deriving to it, and nothing when none does |
| MarketUtils.TableStep | market_utils.py:67-72 | one table assignment extends the last-write-wins table from the hashes seen to one more hash |
| MarketUtils.ResolveBadge | market_utils.py:77-91 | a badge matches by app id when any hash derives to it; otherwise by app name; None exactly when neither does; a match is a catalogue hash |
| MarketUtils.MatchBadgesWithListingHashes | market_utils.py:46-96 | the match table has one entry per badge in the badges' order, each holding `ResolveBadge` over the catalogue's hashes |
| MarketUtils.BadgeRecordOf | market_utils.py:124-147 | one aggregation step: the `KeyError` on a missing match entry or listing, a skip for a None match, or the record with its gem cost and sell price in euros; a badge matched to a listed hash always gets its record, and a step fails only with its own missing match or a missing listing |
| MarketUtils.MatchedAppIds | market_utils.py:131-136 | the app ids that get a record are exactly the badges whose match is a listing hash |
| MarketUtils.AggregatedFailureSticks | market_utils.py:124-138 | once a prefix of the badges raises, the whole loop raises the same error |
| MarketUtils.AggregatedFailure | market_utils.py:124-138 | aggregation raises exactly when some badge's step raises, and then with the error of the first such badge |
| MarketUtils.AggregatedEntries | market_utils.py:122-149 | a successful table has one record per matched badge and no other, in badge order, each record being the one its step builds |
| MarketUtils.AggregateBadgeData | market_utils.py:99-149 | the aggregation loop returns exactly `Aggregated` over all badges, including its first error |
| MarketUtils.PipelineSucceeds | market_utils.py:161-175 | filtering, then matching, then aggregating never raises |
| MarketUtils.LoadAggregatedBadgeData | market_utils.py:152-177 | the pipeline's table has a record exactly for the badges that resolve to a non-dubious hash, and every record's hash is a non-dubious catalogue hash |
| MarketUtils.GenuineCatalogueKept | market_utils.py:26-34 | a catalogue whose only hash has no `#` is unchanged by filtering |
| MarketUtils.PipelineExample | market_utils.py:152-177 | app 10 "A" at 5 gems and 0.1 per gem, with "10-A" selling for 100 cents, aggregates to one record costing 0.5 and selling for 1.0 |
| Text.Contains | market_utils.py:15 | Python's `in` on strings: true exactly when the pattern occurs at some position |
| Text.IntToString | inventory_utils.py:20 | `str()` of an integer: a non-empty string of decimal digits and an optional minus sign, so it never contains a slash |
| Text.ParseIntToString | inventory_utils.py:71 | `str()` of an integer reads back as that integer |
| Text.IntToStringInjective | inventory_utils.py:20 | different integers have different decimal strings |
| Dicts.PutNew | market_utils.py:34 | assigning a key not yet in a dict appends it to the iteration order and leaves the other keys' values unchanged |
| Dicts.PutGet | market_utils.py:71-72 | after `d[k] = v`, `d[k]` is v and every other key reads as before (last write wins) |
| Dicts.AssignAllFields | inventory_utils.py:68-73 | assigning distinct new keys in turn appends them to the iteration order, each reading back as the value assigned to it |
| Dicts.AssignedInTurn | inventory_utils.py:118-125 | a dict equals what assigning its values in iteration order into `dict()` produces |
| InventoryUtils.InventoryUrl | inventory_utils.py:12-22 | the URL starts with the profiles prefix followed by the profile id, and ends with a slash |
| InventoryUtils.InventoryUrlDefaults | inventory_utils.py:12-22 | with the default app id 753 and context id 6, the URL is the profile URL followed by "/inventory/json/753/6/" |
| InventoryUtils.InventoryUrlSegments | inventory_utils.py:19-20 | the URL read from the right is a head, then the app id and the context id, each followed by a slash |
| InventoryUtils.SlashSplitLast | inventory_utils.py:19-20 | a string split at its last slash determines both parts |
| InventoryUtils.InventoryUrlInjective | inventory_utils.py:19-20 | different profile ids, app ids or context ids give different URLs, for any profile id |
| InventoryUtils.GetSessionId | inventory_utils.py:52-58 | the session id is the cookie's "sessionid" value; a cookie without it raises `KeyError` |
| InventoryUtils.BoosterPackCreationParameters | inventory_utils.py:67-75 | parameters sessionid, appid, series, tradability_preference in that order, with series "1" and tradability preference "2" |
| InventoryUtils.CreationParametersAssigned | inventory_utils.py:67-75 | the parameters are exactly what the four assignments into `dict()` produce, in order |
| InventoryUtils.CreationParametersCarryAppId | inventory_utils.py:71 | the "appid" parameter parses back to the app id |
| InventoryUtils.MarketSellParameters | inventory_utils.py:117-127 | parameters sessionid, appid, contextid, asset_id, amount, price in that order |
| InventoryUtils.SellParametersAssigned | inventory_utils.py:117-127 | the parameters are exactly what the six assignments into `dict()` produce, in order |
| InventoryUtils.SellParametersCarryPrice | inventory_utils.py:125 | the "price" parameter parses back to the price in cents |
| InventoryUtils.CreateBoosterPackRequest | inventory_utils.py:78-93 | empty cookie raises `AssertionError`; a non-empty cookie without "sessionid" raises `KeyError`; otherwise a request to the creation URL carrying the cookie and exactly the creation parameters built from the app id and the cookie's session id |
| InventoryUtils.SellBoosterPackRequest | inventory_utils.py:130-146 | the same two failures; otherwise a request to the sell URL carrying the cookie and exactly the sell parameters built from the asset id, the price and the cookie's session id |
| InventoryUtils.FindDescription | inventory_utils.py:174-182 | the first scan finds the first description, in iteration order, named by the listing hash, or none |
| InventoryUtils.FindAsset | inventory_utils.py:186-192 | the second scan finds the first asset sharing both class id and instance id, or none |
| InventoryUtils.FindDescriptionFirst | inventory_utils.py:174-182 | the first scan stops at the first description with that name |
| InventoryUtils.FindAssetFirst | inventory_utils.py:186-192 | the second scan stops at the first asset of that class and instance |
| InventoryUtils.AssetIdWhenDescribed | inventory_utils.py:164-202 | with a matching description, the result is the id of the first asset of its class and instance, or None when there is none; no error |
| InventoryUtils.AssetIdWhenUndescribed | inventory_utils.py:184-200 | without a matching description, an empty `rgInventory` gives None and any other raises `KeyError` on 'classid' |
| InventoryUtils.LaterDescriptionsIgnored | inventory_utils.py:174-182 | descriptions after the first match, duplicates included, do not affect the result |
| InventoryUtils.CopyDescription | inventory_utils.py:176-181 | the six copies into the empty matched element give six keys in order, each holding the description's field, and no "id" |
| InventoryUtils.CopyDescriptionAssigned | inventory_utils.py:176-181 | the matched element is exactly what the six assignments into `dict()` produce, in order |
| InventoryUtils.SecondScanFields | inventory_utils.py:189-191 | after the second scan's three copies the matched element's "id" is the asset's id |
| InventoryUtils.MatchDescription | inventory_utils.py:172-182 | the first loop leaves the copy of the first description named by the listing hash, or the empty element when there is none |
| InventoryUtils.MatchAsset | inventory_utils.py:184-202 | the second loop and the final lookup: from the empty element, `KeyError` on 'classid' unless `rgInventory` is empty; from a copied description, the id of the first asset of its class and instance, or None |
| InventoryUtils.RetrieveAssetId | inventory_utils.py:164-202 | the two scans and the final lookup return or raise exactly what `AssetIdOf` gives |
| InventoryUtils.IntendedAssetId | inventory_utils.py:164-202 | corrected lookup: None when no description matches; the code's result wherever the code does not raise; any id is some asset's id |
| InventoryUtils.UndescribedLookupRaises | inventory_utils.py:184-188 | with no descriptions and a single asset, the code raises `KeyError` on 'classid' where the corrected lookup returns None |

## Left out

- Network requests are not modelled:
  - the `requests.get` calls;
  - the status-code checks and the JSON bodies of their responses;
  - `load_steam_inventory`.
  - The create and sell operations stop at the request they would send.
- `print` output and the `verbose` flags are not modelled.
- `get_cookie_dict` and `get_my_steam_profile_id` are not modelled:
  - the cookie and the profile id are arguments;
  - the default of a `None` profile id to the hard-coded id is therefore not modelled.
- Loading inputs when an argument is `None` is not modelled:
  `parse_badge_creation_details`, `load_all_listings`, `update_all_listings` and
  the gem-price arguments of `get_gem_price`. The loaded values are arguments, and
  the gem price is the `gemUnitPrice` parameter.
- `convert_listing_hash_to_app_id` and `convert_listing_hash_to_app_name` are the
  parameters `appIdOf` and `appNameOf`.
- `populate_random_samples_of_badge_data` is not modelled: it uses randomness.
- The `main` functions are not modelled.
- Floating-point rounding is not modelled: prices are exact reals.
- Missing fields inside JSON-like records are not modelled. Badge details,
  listings, descriptions and assets are typed records, so these `KeyError`s never
  arise in the model:
  - a badge detail without 'name' or 'gem_value';
  - a listing without 'sell_price';
  - an inventory without 'rgDescriptions' or 'rgInventory';
  - a description or asset without one of its fields.
- JSON scalars of the inventory (class ids, instance ids, asset ids) are strings,
  compared by string equality.
- `str()` of the profile id, the session id and the asset id is the identity on
  strings, since each is modelled as a string.
- `get_steam_booster_pack_creation_url` and `get_steam_market_sell_url` are the
  constants `BOOSTER_PACK_CREATION_URL` and `MARKET_SELL_URL`.
- MarketUtils.MarkerMakesDubious: the two example hashes in the source comments
  are not checked as literals. The lemma covers every hash that contains the marker.

## Findings

| source | as written | input that shows it | evidently intended | confidence | as-written member | corrected member |
|---|---|---|---|---|---|---|
| inventory_utils.py:186-188 | when no description is named by the listing hash, the second scan reads `matched_element['classid']` from an empty dict, so any non-empty `rgInventory` raises `KeyError` | no descriptions and one asset, any listing hash | return None, as the function does when no asset matches | medium, not executed | InventoryUtils.UndescribedLookupRaises | InventoryUtils.IntendedAssetId |
