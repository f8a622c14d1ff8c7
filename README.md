# MediaRouter2Utils conversions, modelled in Dafny

The media-router library describes a route with a `MediaRouteDescriptor`
whose capabilities are *control filters* (intent filters carrying control
categories such as live audio, live video or remote playback). The platform
describes the same route with a `MediaRoute2Info` whose capabilities are
*route features*. `MediaRouter2Utils` converts between the two:

- `toRouteFeature` / `toControlCategory`: the category <-> feature string mapping
  (three known pairs; every other string maps to itself);
- `toFeatures`: the feature set of a list of control filters;
- `toControlFilters`: one single-category control filter per distinct feature;
- `toDiscoveryPreference`: a discovery request's selector categories as a list
  of preferred features;
- `toFwkMediaRoute2Info` / `toMediaRouteDescriptor`: the record conversions,
  including the `FEATURE_EMPTY` placeholder and the null handling.

Files:

- `wrappers.dfy` — `Option`, standing for a nullable reference.
- `collections.dfy` — element sets, duplicate freedom and `Distinct`, the
  first-occurrence de-duplication performed by a Java stream's `distinct()`,
  with its order and cardinality lemmas.
- `media_router2_utils.dfy` — the records, the constants and the conversions.

Modelling choices:

- An `IntentFilter` is its list of categories. `Uri` and `Bundle` values are
  opaque types that are only copied.
- The six platform/library constants (`MediaControlIntent.CATEGORY_*`,
  `MediaRoute2Info.FEATURE_*`) are defined outside this code; they are
  declared without a value, and every lemma that needs more than their names
  assumes only `ConstantsDistinct()`: the seven strings, `FeatureEmpty`
  included, are pairwise different. `FeatureEmpty` carries its value from
  line 46.
- `toFeatures` fills a hash set in two nested loops; it is the method
  `ToFeatures`, proved against the set `FeatureSet` written as a comprehension.
  The platform builder's `addFeatures` receives that set in whatever order the
  set yields it; `Enumerate` models this with a nondeterministic choice, so
  the record's feature list is specified by its element set and its freedom
  from duplicates, not by its order.
- The two record conversions build their result with a builder; the model
  keeps the builder as a local record updated step by step, in the source's
  order, with the same conditional steps.
- `toControlFilters` and `toDiscoveryPreference` are stream pipelines and are
  functions.

## Model

| member | source | states |
|---|---|---|
| MediaRouter2Utils.RouteFeature | mediarouter/mediarouter/src/main/java/androidx/mediarouter/media/MediaRouter2Utils.java:158-168 | live audio maps to its feature; a control category maps to a route feature; every string that is not one of the three categories is returned unchanged |
| MediaRouter2Utils.ControlCategory | mediarouter/mediarouter/src/main/java/androidx/mediarouter/media/MediaRouter2Utils.java:170-180 | live-audio feature maps to its category; a route feature maps to a control category; every string that is not one of the three features is returned unchanged |
| MediaRouter2Utils.RouteFeatureCases | mediarouter/mediarouter/src/main/java/androidx/mediarouter/media/MediaRouter2Utils.java:158-168 | with distinct constants, each of the three categories maps to its own feature |
| MediaRouter2Utils.ControlCategoryCases | mediarouter/mediarouter/src/main/java/androidx/mediarouter/media/MediaRouter2Utils.java:170-180 | with distinct constants, each of the three features maps to its own category |
| MediaRouter2Utils.ControlCategoryOfRouteFeature | mediarouter/mediarouter/src/main/java/androidx/mediarouter/media/MediaRouter2Utils.java:158-180 | round trip: a category that is not a feature string comes back unchanged from toRouteFeature then toControlCategory |
| MediaRouter2Utils.RouteFeatureOfControlCategory | mediarouter/mediarouter/src/main/java/androidx/mediarouter/media/MediaRouter2Utils.java:158-180 | round trip: a feature that is not a category string comes back unchanged from toControlCategory then toRouteFeature |
| MediaRouter2Utils.RoundTripLeavesDomain | mediarouter/mediarouter/src/main/java/androidx/mediarouter/media/MediaRouter2Utils.java:158-180 | the round trip's domain restriction is needed: a feature string passed as a category comes back as a different string |
| MediaRouter2Utils.RouteFeatureIdempotent | mediarouter/mediarouter/src/main/java/androidx/mediarouter/media/MediaRouter2Utils.java:158-168 | applying toRouteFeature twice is applying it once |
| MediaRouter2Utils.ToFeatures | mediarouter/mediarouter/src/main/java/androidx/mediarouter/media/MediaRouter2Utils.java:119-128 | the result is exactly the set of toRouteFeature(c) over every category c of every filter (a set, so without duplicates); no filters give the empty set |
| MediaRouter2Utils.ToControlFilters | mediarouter/mediarouter/src/main/java/androidx/mediarouter/media/MediaRouter2Utils.java:130-143 | null gives no filters; otherwise one filter per distinct feature, the k-th holding exactly the single category toControlCategory of the k-th distinct feature |
| Collections.Distinct | mediarouter/mediarouter/src/main/java/androidx/mediarouter/media/MediaRouter2Utils.java:135 | distinct() keeps no duplicates and exactly the elements of its input |
| Collections.DistinctKeepsFirstOccurrenceOrder | mediarouter/mediarouter/src/main/java/androidx/mediarouter/media/MediaRouter2Utils.java:135 | distinct() keeps the elements in the order of their first occurrence |
| Collections.DistinctLength | mediarouter/mediarouter/src/main/java/androidx/mediarouter/media/MediaRouter2Utils.java:135 | distinct() yields one element per distinct input element |
| MediaRouter2Utils.ControlFiltersPerFeature | mediarouter/mediarouter/src/main/java/androidx/mediarouter/media/MediaRouter2Utils.java:135-142 | every feature has a filter holding its control category, and the filters follow the features' first-occurrence order |
| MediaRouter2Utils.ToDiscoveryPreference | mediarouter/mediarouter/src/main/java/androidx/mediarouter/media/MediaRouter2Utils.java:145-156 | a null or invalid request gives no features and no active scan; otherwise the selector's categories mapped one by one through toRouteFeature, same length and order, and the active-scan flag copied |
| MediaRouter2Utils.DiscoveryPreferenceRoundTrip | mediarouter/mediarouter/src/main/java/androidx/mediarouter/media/MediaRouter2Utils.java:151-154 | mapping the preferred features back through toControlCategory gives the selector's categories when none is a feature string |
| MediaRouter2Utils.Enumerate | mediarouter/mediarouter/src/main/java/androidx/mediarouter/media/MediaRouter2Utils.java:63 | the features handed to the builder are the feature set's elements, each once |
| MediaRouter2Utils.ToFwkMediaRoute2Info | mediarouter/mediarouter/src/main/java/androidx/mediarouter/media/MediaRouter2Utils.java:50-78 | null gives null; otherwise id, name, description, connection state, volume handling, volume, volume max, icon and extras are copied, and the features are, without duplicates, toFeatures of the control filters plus FEATURE_EMPTY exactly when the filter list is empty |
| MediaRouter2Utils.ToMediaRouteDescriptor | mediarouter/mediarouter/src/main/java/androidx/mediarouter/media/MediaRouter2Utils.java:80-117 | null gives null; otherwise enabled and not disconnectable, control filters are toControlFilters of the features, description and icon are copied when present and stay absent otherwise, the other fields are copied |
| MediaRouter2Utils.CategorylessFilterGetsNoFeature | mediarouter/mediarouter/src/main/java/androidx/mediarouter/media/MediaRouter2Utils.java:72-75 | a description whose only control filter has no categories is converted to a record with no feature at all |
| MediaRouter2Utils.ToFwkMediaRoute2InfoNonEmpty | mediarouter/mediarouter/src/main/java/androidx/mediarouter/media/MediaRouter2Utils.java:72-75 | with the placeholder guard on the feature set instead of the filter list, the record's feature list is never empty and otherwise agrees with toFwkMediaRoute2Info |
| MediaRouter2Utils.FeaturesRoundTrip | mediarouter/mediarouter/src/main/java/androidx/mediarouter/media/MediaRouter2Utils.java:119-143 | features that are not category strings, turned into control filters and back into features, give back exactly the same feature set |
| MediaRouter2Utils.CategoriesRoundTrip | mediarouter/mediarouter/src/main/java/androidx/mediarouter/media/MediaRouter2Utils.java:63-90 | a description's control categories that are not feature strings, converted to route features and back to control filters, give exactly the original categories, plus FEATURE_EMPTY when there were no filters |

## Left out

- The string values of the six `MediaControlIntent` / `MediaRoute2Info`
  constants: they are defined outside this code, so only their distinctness
  is assumed.
- The platform builders' own validation (empty id or name, empty feature
  list): the model records what the conversions hand to the builders and
  does not model the exceptions the builders may throw.
- The contents of `Bundle` extras and `Uri` icon values: opaque, copied through.
- `MediaRouteDiscoveryRequest.isValid()`: its implementation is not part of
  this model; its outcome is the request's `valid` field.
- The order of the platform record's feature list: it follows the iteration
  order of a `HashSet`, which the code does not fix.
- The framework's `MediaRoute2Info.getId()`, which may prefix a provider id:
  the model treats the id as the stored value on both sides.
- The `CharSequence`/`String` distinction for name and description: both are
  strings here, so `toString()` is the identity.
- The descriptor fields the conversions never set (device type, group members,
  playback settings, and so on) are not part of the record.
- Null strings in a switch (a `NullPointerException` in Java): categories and
  features are never null in the model.

## Findings

| source | as written | input that shows it | evidently intended | confidence | as-written member | corrected member |
|---|---|---|---|---|---|---|
| mediarouter/mediarouter/src/main/java/androidx/mediarouter/media/MediaRouter2Utils.java:72-75 | FEATURE_EMPTY is added only when the control-filter list is empty | a descriptor whose single control filter has no categories: the filter list is non-empty, toFeatures gives the empty set, and the record gets no feature at all, which is the case the workaround exists to avoid | add FEATURE_EMPTY whenever the feature set is empty | medium, not executed | MediaRouter2Utils.CategorylessFilterGetsNoFeature | MediaRouter2Utils.ToFwkMediaRoute2InfoNonEmpty |
