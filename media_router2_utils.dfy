/** Conversions between the media-router library's route description
    (`MediaRouteDescriptor`, control filters, discovery requests) and the
    platform's route records (`MediaRoute2Info`, route features, discovery
    preferences), as done by `MediaRouter2Utils`. */
module MediaRouter2Utils {
  import opened Wrappers
  import opened Collections

  // ---------------------------------------------------------------------
  // Constants
  // ---------------------------------------------------------------------

  /** The library's control categories (`MediaControlIntent.CATEGORY_*`) and
      the platform's route features (`MediaRoute2Info.FEATURE_*`). Their
      strings are defined outside this model and left unspecified; the only
      fact the proofs use about them is `ConstantsDistinct`. */
  const CategoryLiveAudio: string
  const CategoryLiveVideo: string
  const CategoryRemotePlayback: string
  const FeatureLiveAudio: string
  const FeatureLiveVideo: string
  const FeatureRemotePlayback: string

  /** Placeholder feature given to a route that would otherwise have none. */
  const FeatureEmpty: string := "android.media.route.feature.EMPTY"

  const ControlCategories: set<string> := {CategoryLiveAudio, CategoryLiveVideo, CategoryRemotePlayback}
  const RouteFeatures: set<string> := {FeatureLiveAudio, FeatureLiveVideo, FeatureRemotePlayback}

  /** The seven constants are pairwise different strings. */
  predicate ConstantsDistinct()
  {
    CategoryLiveAudio !in {CategoryLiveVideo, CategoryRemotePlayback, FeatureLiveAudio, FeatureLiveVideo, FeatureRemotePlayback, FeatureEmpty} &&
    CategoryLiveVideo !in {CategoryRemotePlayback, FeatureLiveAudio, FeatureLiveVideo, FeatureRemotePlayback, FeatureEmpty} &&
    CategoryRemotePlayback !in {FeatureLiveAudio, FeatureLiveVideo, FeatureRemotePlayback, FeatureEmpty} &&
    FeatureLiveAudio !in {FeatureLiveVideo, FeatureRemotePlayback, FeatureEmpty} &&
    FeatureLiveVideo !in {FeatureRemotePlayback, FeatureEmpty} &&
    FeatureRemotePlayback != FeatureEmpty
  }

  // ---------------------------------------------------------------------
  // Records
  // ---------------------------------------------------------------------

  /** An icon URI and an extras bundle: copied through, never inspected. */
  type Uri(==)
  type Bundle(==)

  /** An intent filter, seen through its categories only. */
  datatype IntentFilter = IntentFilter(categories: seq<string>)

  /** The library's description of a route (the fields the conversions use). */
  datatype MediaRouteDescriptor = MediaRouteDescriptor(
    id: string,
    name: string,
    description: Option<string>,
    iconUri: Option<Uri>,
    connectionState: int,
    volumeHandling: int,
    volume: int,
    volumeMax: int,
    controlFilters: seq<IntentFilter>,
    extras: Option<Bundle>,
    enabled: bool,
    canDisconnect: bool)

  /** The platform's route record. */
  datatype MediaRoute2Info = MediaRoute2Info(
    id: string,
    name: string,
    description: Option<string>,
    iconUri: Option<Uri>,
    connectionState: int,
    volumeHandling: int,
    volume: int,
    volumeMax: int,
    features: seq<string>,
    extras: Option<Bundle>)

  datatype MediaRouteSelector = MediaRouteSelector(controlCategories: seq<string>)

  /** A discovery request; `valid` is the outcome of the request's own
      `isValid()` check. */
  datatype MediaRouteDiscoveryRequest = MediaRouteDiscoveryRequest(
    selector: MediaRouteSelector,
    activeScan: bool,
    valid: bool)

  /** The platform's discovery preference. */
  datatype RouteDiscoveryPreference = RouteDiscoveryPreference(
    preferredFeatures: seq<string>,
    activeScan: bool)

  // ---------------------------------------------------------------------
  // Category <-> feature mapping
  // ---------------------------------------------------------------------

  /** The route feature for a control category; any string that is not one
      of the three control categories is its own feature. */
  function RouteFeature(category: string): (feature: string)
    ensures category == CategoryLiveAudio ==> feature == FeatureLiveAudio
    ensures category in ControlCategories ==> feature in RouteFeatures
    ensures category !in ControlCategories ==> feature == category
  {
    if category == CategoryLiveAudio then FeatureLiveAudio
    else if category == CategoryLiveVideo then FeatureLiveVideo
    else if category == CategoryRemotePlayback then FeatureRemotePlayback
    else category
  }

  /** The control category for a route feature; any string that is not one
      of the three route features is its own category. */
  function ControlCategory(feature: string): (category: string)
    ensures feature == FeatureLiveAudio ==> category == CategoryLiveAudio
    ensures feature in RouteFeatures ==> category in ControlCategories
    ensures feature !in RouteFeatures ==> category == feature
  {
    if feature == FeatureLiveAudio then CategoryLiveAudio
    else if feature == FeatureLiveVideo then CategoryLiveVideo
    else if feature == FeatureRemotePlayback then CategoryRemotePlayback
    else feature
  }

  /** Each control category goes to its own feature. */
  lemma RouteFeatureCases()
    requires ConstantsDistinct()
    ensures RouteFeature(CategoryLiveAudio) == FeatureLiveAudio
    ensures RouteFeature(CategoryLiveVideo) == FeatureLiveVideo
    ensures RouteFeature(CategoryRemotePlayback) == FeatureRemotePlayback
  {
  }

  /** Each route feature goes to its own control category. */
  lemma ControlCategoryCases()
    requires ConstantsDistinct()
    ensures ControlCategory(FeatureLiveAudio) == CategoryLiveAudio
    ensures ControlCategory(FeatureLiveVideo) == CategoryLiveVideo
    ensures ControlCategory(FeatureRemotePlayback) == CategoryRemotePlayback
  {
  }

  /** A category that is not itself a feature string comes back from the
      platform unchanged. */
  lemma ControlCategoryOfRouteFeature(category: string)
    requires ConstantsDistinct()
    requires category !in RouteFeatures
    ensures ControlCategory(RouteFeature(category)) == category
  {
  }

  /** A feature that is not itself a category string comes back from the
      library unchanged. */
  lemma RouteFeatureOfControlCategory(feature: string)
    requires ConstantsDistinct()
    requires feature !in ControlCategories
    ensures RouteFeature(ControlCategory(feature)) == feature
  {
  }

  /** Outside that domain the round trip fails: a feature string offered as a
      category comes back as the matching category. */
  lemma RoundTripLeavesDomain()
    requires ConstantsDistinct()
    ensures ControlCategory(RouteFeature(FeatureLiveAudio)) == CategoryLiveAudio != FeatureLiveAudio
  {
  }

  /** Mapping to features twice is mapping once. */
  lemma RouteFeatureIdempotent(category: string)
    requires ConstantsDistinct()
    ensures RouteFeature(RouteFeature(category)) == RouteFeature(category)
  {
  }

  // ---------------------------------------------------------------------
  // Control filters -> features
  // ---------------------------------------------------------------------

  /** Every feature of every category of every filter. */
  function FeatureSet(filters: seq<IntentFilter>): set<string>
  {
    set i, j | 0 <= i < |filters| && 0 <= j < |filters[i].categories| :: RouteFeature(filters[i].categories[j])
  }

  /** The part of `FeatureSet(filters)` contributed by the categories before
      category `j` of filter `i`. */
  function FeaturesBefore(filters: seq<IntentFilter>, i: nat, j: nat): set<string>
  {
    set p, q | 0 <= p < |filters| && 0 <= q < |filters[p].categories| && (p < i || (p == i && q < j))
      :: RouteFeature(filters[p].categories[q])
  }

  /** Collects the features of all categories of all filters, visiting the
      filters in order and each filter's categories by index. */
  method ToFeatures(controlFilters: seq<IntentFilter>) returns (features: set<string>)
    ensures features == FeatureSet(controlFilters)
    ensures |controlFilters| == 0 ==> features == {}
  {
    features := {};
    for i := 0 to |controlFilters|
      invariant features == FeaturesBefore(controlFilters, i, 0)
    {
      var filter := controlFilters[i];
      var count := |filter.categories|;
      for k := 0 to count
        invariant features == FeaturesBefore(controlFilters, i, k)
      {
        features := features + {RouteFeature(filter.categories[k])};
      }
      assert FeaturesBefore(controlFilters, i, count) == FeaturesBefore(controlFilters, i + 1, 0);
    }
    assert FeaturesBefore(controlFilters, |controlFilters|, 0) == FeatureSet(controlFilters);
  }

  // ---------------------------------------------------------------------
  // Features -> control filters, discovery request -> preference
  // ---------------------------------------------------------------------

  /** One single-category filter per distinct feature, in the order in which
      the features first occur; no features at all (`null`) give no filters. */
  function ToControlFilters(features: Option<seq<string>>): (filters: seq<IntentFilter>)
    ensures features.None? ==> filters == []
    ensures features.Some? ==> |filters| == |Elements(features.value)| == |Distinct(features.value)|
    ensures features.Some? ==> forall k :: 0 <= k < |filters| ==>
      filters[k].categories == [ControlCategory(Distinct(features.value)[k])]
  {
    match features
    case None => []
    case Some(fs) =>
      var d := Distinct(fs);
      DistinctLength(fs);
      seq(|d|, k requires 0 <= k < |d| => IntentFilter([ControlCategory(d[k])]))
  }

  /** Every feature is represented by exactly one filter, and the filters keep
      the features' first-occurrence order. */
  lemma {:induction false} ControlFiltersPerFeature(fs: seq<string>)
    ensures forall f :: f in fs ==>
      exists k :: 0 <= k < |ToControlFilters(Some(fs))| && ToControlFilters(Some(fs))[k].categories == [ControlCategory(f)]
    ensures forall k, l :: 0 <= k < l < |ToControlFilters(Some(fs))| ==>
      FirstIndex(fs, Distinct(fs)[k]) < FirstIndex(fs, Distinct(fs)[l])
  {
    var d := Distinct(fs);
    forall f | f in fs
      ensures exists k :: 0 <= k < |ToControlFilters(Some(fs))| && ToControlFilters(Some(fs))[k].categories == [ControlCategory(f)]
    {
      var i :| 0 <= i < |fs| && fs[i] == f;
      assert f in d;
      var k :| 0 <= k < |d| && d[k] == f;
      assert ToControlFilters(Some(fs))[k].categories == [ControlCategory(f)];
    }
    DistinctKeepsFirstOccurrenceOrder(fs);
  }

  /** The features a discovery request asks for: none for an absent or
      invalid request, otherwise the selector's categories mapped one by one,
      with the request's active-scan flag. */
  function ToDiscoveryPreference(request: Option<MediaRouteDiscoveryRequest>): (preference: RouteDiscoveryPreference)
    ensures (request.None? || !request.value.valid) ==> preference == RouteDiscoveryPreference([], false)
    ensures request.Some? && request.value.valid ==>
      var categories := request.value.selector.controlCategories;
      && preference.activeScan == request.value.activeScan
      && |preference.preferredFeatures| == |categories|
      && forall i :: 0 <= i < |categories| ==> preference.preferredFeatures[i] == RouteFeature(categories[i])
  {
    if request.None? || !request.value.valid then RouteDiscoveryPreference([], false)
    else
      var categories := request.value.selector.controlCategories;
      var routeFeatures := seq(|categories|, i requires 0 <= i < |categories| => RouteFeature(categories[i]));
      RouteDiscoveryPreference(routeFeatures, request.value.activeScan)
  }

  /** Mapping the preferred features back gives the selector's categories
      when none of them is a feature string. */
  lemma DiscoveryPreferenceRoundTrip(request: MediaRouteDiscoveryRequest)
    requires ConstantsDistinct()
    requires request.valid
    requires forall c :: c in request.selector.controlCategories ==> c !in RouteFeatures
    ensures var features := ToDiscoveryPreference(Some(request)).preferredFeatures;
      seq(|features|, i requires 0 <= i < |features| => ControlCategory(features[i]))
        == request.selector.controlCategories
  {
    var categories := request.selector.controlCategories;
    var features := ToDiscoveryPreference(Some(request)).preferredFeatures;
    forall i | 0 <= i < |categories| ensures ControlCategory(features[i]) == categories[i] {
      ControlCategoryOfRouteFeature(categories[i]);
    }
  }

  // ---------------------------------------------------------------------
  // Record conversions
  // ---------------------------------------------------------------------

  /** The elements of `s` one at a time, in whatever order the set yields
      them: what the platform builder's `addFeatures` receives. */
  method Enumerate(s: set<string>) returns (list: seq<string>)
    ensures NoDuplicates(list)
    ensures Elements(list) == s
  {
    list := [];
    var rest := s;
    while rest != {}
      invariant rest <= s
      invariant NoDuplicates(list)
      invariant Elements(list) == s - rest
      decreases |rest|
    {
      var x :| x in rest;
      assert Elements(list + [x]) == Elements(list) + {x};
      list := list + [x];
      rest := rest - {x};
    }
  }

  /** The platform record for a route description. Its features are those of
      the control filters, in the unspecified order in which the feature set
      yields them, plus the placeholder `FeatureEmpty` when the description
      has no control filters at all. */
  method ToFwkMediaRoute2Info(descriptor: Option<MediaRouteDescriptor>) returns (info: Option<MediaRoute2Info>)
    ensures descriptor.None? <==> info.None?
    ensures descriptor.Some? ==>
      var d, r := descriptor.value, info.value;
      && r.id == d.id && r.name == d.name && r.description == d.description
      && r.connectionState == d.connectionState && r.volumeHandling == d.volumeHandling
      && r.volume == d.volume && r.volumeMax == d.volumeMax
      && r.iconUri == d.iconUri && r.extras == d.extras
      && NoDuplicates(r.features)
      && Elements(r.features) == FeatureSet(d.controlFilters) + (if |d.controlFilters| == 0 then {FeatureEmpty} else {})
  {
    if descriptor.None? {
      return None;
    }
    var d := descriptor.value;
    var builder := MediaRoute2Info(d.id, d.name, d.description, None, d.connectionState,
                                   d.volumeHandling, d.volume, d.volumeMax, [], None);
    // addFeatures: one feature at a time, in whatever order the set yields
    var featureSet := ToFeatures(d.controlFilters);
    var added := Enumerate(featureSet);
    builder := builder.(features := builder.features + added);
    builder := builder.(iconUri := d.iconUri, extras := d.extras);
    if |d.controlFilters| == 0 {
      assert Elements(builder.features + [FeatureEmpty]) == Elements(builder.features) + {FeatureEmpty};
      builder := builder.(features := builder.features + [FeatureEmpty]);
    }
    return Some(builder);
  }

  /** The route description for a platform record: always enabled, never
      disconnectable, with one control filter per distinct feature;
      description and icon are set only when present. */
  method ToMediaRouteDescriptor(fwkInfo: Option<MediaRoute2Info>) returns (descriptor: Option<MediaRouteDescriptor>)
    ensures fwkInfo.None? <==> descriptor.None?
    ensures fwkInfo.Some? ==>
      var i, r := fwkInfo.value, descriptor.value;
      && r.id == i.id && r.name == i.name && r.description == i.description
      && r.connectionState == i.connectionState && r.volumeHandling == i.volumeHandling
      && r.volume == i.volume && r.volumeMax == i.volumeMax
      && r.iconUri == i.iconUri && r.extras == i.extras
      && r.enabled && !r.canDisconnect
      && r.controlFilters == ToControlFilters(Some(i.features))
  {
    if fwkInfo.None? {
      return None;
    }
    var i := fwkInfo.value;
    var builder := MediaRouteDescriptor(i.id, i.name, None, None, 0, 0, 0, 0, [], None, true, false);
    builder := builder.(
      controlFilters := builder.controlFilters + ToControlFilters(Some(i.features)),
      connectionState := i.connectionState,
      volumeHandling := i.volumeHandling,
      volumeMax := i.volumeMax,
      volume := i.volume,
      extras := i.extras,
      enabled := true,
      canDisconnect := false);
    if i.description.Some? {
      builder := builder.(description := i.description);
    }
    if i.iconUri.Some? {
      builder := builder.(iconUri := i.iconUri);
    }
    return Some(builder);
  }

  /** Like `ToFwkMediaRoute2Info`, but the placeholder is added whenever the
      feature set is empty, so that the platform record never lacks a
      feature. */
  method ToFwkMediaRoute2InfoNonEmpty(descriptor: Option<MediaRouteDescriptor>) returns (info: Option<MediaRoute2Info>)
    ensures descriptor.None? <==> info.None?
    ensures descriptor.Some? ==>
      var d, r := descriptor.value, info.value;
      && r.id == d.id && r.name == d.name && r.description == d.description
      && r.connectionState == d.connectionState && r.volumeHandling == d.volumeHandling
      && r.volume == d.volume && r.volumeMax == d.volumeMax
      && r.iconUri == d.iconUri && r.extras == d.extras
      && NoDuplicates(r.features)
      && Elements(r.features) == FeatureSet(d.controlFilters) + (if FeatureSet(d.controlFilters) == {} then {FeatureEmpty} else {})
      && |r.features| > 0
  {
    if descriptor.None? {
      return None;
    }
    var d := descriptor.value;
    var featureSet := ToFeatures(d.controlFilters);
    var added := Enumerate(featureSet);
    var builder := MediaRoute2Info(d.id, d.name, d.description, d.iconUri, d.connectionState,
                                   d.volumeHandling, d.volume, d.volumeMax, added, d.extras);
    if featureSet == {} {
      assert Elements(builder.features + [FeatureEmpty]) == Elements(builder.features) + {FeatureEmpty};
      builder := builder.(features := builder.features + [FeatureEmpty]);
    }
    assert builder.features != [] by {
      if featureSet != {} {
        var f :| f in featureSet;
        assert f in Elements(builder.features);
      }
    }
    return Some(builder);
  }

  /** A description whose only control filter has no categories reaches the
      platform with no feature at all: the placeholder guard looks at the
      filter list, not at the features it yields. */
  method CategorylessFilterGetsNoFeature() returns (info: Option<MediaRoute2Info>)
    ensures info.Some? && info.value.features == []
  {
    var filters := [IntentFilter([])];
    assert FeatureSet(filters) == {};
    info := ToFwkMediaRoute2Info(Some(MediaRouteDescriptor("route", "Route", None, None, 0, 0, 0, 0,
                                                           filters, None, true, false)));
    ElementsEmpty(info.value.features);
  }

  // ---------------------------------------------------------------------
  // Round trips between the two representations
  // ---------------------------------------------------------------------

  /** Every category of every filter. */
  function CategorySet(filters: seq<IntentFilter>): set<string>
  {
    set i, j | 0 <= i < |filters| && 0 <= j < |filters[i].categories| :: filters[i].categories[j]
  }

  /** Features that are not category strings survive the trip through the
      library's control filters: the filters built from them carry exactly
      those features again. */
  lemma FeaturesRoundTrip(fs: seq<string>)
    requires ConstantsDistinct()
    requires forall f :: f in fs ==> f !in ControlCategories
    ensures FeatureSet(ToControlFilters(Some(fs))) == Elements(fs)
  {
    var filters := ToControlFilters(Some(fs));
    var d := Distinct(fs);
    forall x | x in FeatureSet(filters) ensures x in Elements(fs) {
      var i, j :| 0 <= i < |filters| && 0 <= j < |filters[i].categories| && x == RouteFeature(filters[i].categories[j]);
      assert d[i] in fs;
      RouteFeatureOfControlCategory(d[i]);
    }
    forall x | x in Elements(fs) ensures x in FeatureSet(filters) {
      ControlFiltersPerFeature(fs);
      var k :| 0 <= k < |filters| && filters[k].categories == [ControlCategory(x)];
      RouteFeatureOfControlCategory(x);
      assert RouteFeature(filters[k].categories[0]) == x;
    }
  }

  /** Control categories that are not feature strings survive the trip
      through the platform record: converting a description's filters to
      features, and the features back to filters, gives filters holding
      exactly the original categories (plus the placeholder when there were
      no filters), whatever order the features were listed in. */
  lemma CategoriesRoundTrip(filters: seq<IntentFilter>, features: seq<string>)
    requires ConstantsDistinct()
    requires forall c :: c in CategorySet(filters) ==> c !in RouteFeatures
    requires Elements(features) == FeatureSet(filters) + (if |filters| == 0 then {FeatureEmpty} else {})
    ensures CategorySet(ToControlFilters(Some(features)))
      == CategorySet(filters) + (if |filters| == 0 then {FeatureEmpty} else {})
  {
    var back := ToControlFilters(Some(features));
    var d := Distinct(features);
    var expected := CategorySet(filters) + (if |filters| == 0 then {FeatureEmpty} else {});
    forall x | x in CategorySet(back) ensures x in expected {
      var i, j :| 0 <= i < |back| && 0 <= j < |back[i].categories| && x == back[i].categories[j];
      var f := d[i];
      assert x == ControlCategory(f);
      assert f in Elements(features);
      if f in FeatureSet(filters) {
        var p, q :| 0 <= p < |filters| && 0 <= q < |filters[p].categories| && f == RouteFeature(filters[p].categories[q]);
        var c := filters[p].categories[q];
        assert c in CategorySet(filters);
        ControlCategoryOfRouteFeature(c);
      }
    }
    forall x | x in expected ensures x in CategorySet(back) {
      ControlFiltersPerFeature(features);
      var f := if x in CategorySet(filters) then RouteFeature(x) else FeatureEmpty;
      if x in CategorySet(filters) {
        var p, q :| 0 <= p < |filters| && 0 <= q < |filters[p].categories| && x == filters[p].categories[q];
        assert f in FeatureSet(filters);
        ControlCategoryOfRouteFeature(x);
      }
      assert f in Elements(features);
      var k :| 0 <= k < |back| && back[k].categories == [ControlCategory(f)];
      assert back[k].categories[0] == x;
    }
  }
}
