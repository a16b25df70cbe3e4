/** The per-feature tooltip injection of app.py's `build_map`, and the map
    builder that ties mode, viewport, styling and tooltips together. */
module Injection {
  import opened GeoJson
  import opened Modes
  import opened Bounds
  import opened Styling
  import opened Tooltips

  /** The dictionary a feature's properties become: `setdefault("properties",
      {})` supplies an empty one when missing, and `props["_tooltip"]` is set
      to the hover text of the dictionary as it was. */
  function WithTooltip(props: Option<Props>, fields: Fields, round4: Value -> Option<string>): (p: Props)
    ensures p.Keys == PropsOrEmpty(props).Keys + {TooltipKey}
    ensures p[TooltipKey] == Str(Tooltip(PropsOrEmpty(props), fields, round4))
    ensures forall k :: k in PropsOrEmpty(props) && k != TooltipKey ==> p[k] == PropsOrEmpty(props)[k]
  {
    var base := PropsOrEmpty(props);
    base[TooltipKey := Str(Tooltip(base, fields, round4))]
  }

  /** Injecting a second time stores the same text and changes nothing else:
      the hover text does not read "_tooltip". */
  lemma InjectionIdempotent(props: Option<Props>, mode: string, round4: Value -> Option<string>)
    ensures var once := WithTooltip(props, Resolve(mode), round4);
            WithTooltip(Some(once), Resolve(mode), round4) == once
  {
    var fields := Resolve(mode);
    var base := PropsOrEmpty(props);
    TooltipIgnoresTooltipKey(base, mode, round4, Str(Tooltip(base, fields, round4)));
  }

  /** Injection does not change how the feature is coloured. */
  lemma InjectionKeepsStyle(props: Option<Props>, mode: string, round4: Value -> Option<string>)
    ensures StyleOf(Some(WithTooltip(props, Resolve(mode), round4)), Resolve(mode)) == StyleOf(props, Resolve(mode))
  {
  }

  /** The loop body: `setdefault` supplies an empty dictionary when the
      feature has none, and the "_tooltip" entry is set in place to the hover
      text of that dictionary. */
  method InjectOne(feat: Feature, fields: Fields, round4: Value -> Option<string>)
    modifies feat
    ensures feat.properties == Some(WithTooltip(old(feat.properties), fields, round4))
  {
    if feat.properties.None? {
      feat.properties := Some(map[]);
    }
    var props := feat.properties.value;
    feat.properties := Some(props[TooltipKey := Str(Tooltip(props, fields, round4))]);
  }

  /** The loop `for feat in gj["features"]`: each feature's properties
      dictionary gains its "_tooltip" entry in place. A feature listed twice
      is injected twice, which by idempotence leaves the same dictionary. */
  method InjectTooltips(features: seq<Feature>, mode: string, round4: Value -> Option<string>)
    modifies set f | f in features
    ensures forall i :: 0 <= i < |features| ==>
              features[i].properties == Some(WithTooltip(old(features[i].properties), Resolve(mode), round4))
  {
    var fields := Resolve(mode);
    ghost var done: set<Feature> := {};
    for i := 0 to |features|
      invariant forall j :: 0 <= j < i ==> features[j] in done
      invariant forall f :: f in features ==>
                  f.properties == if f in done then Some(WithTooltip(old(f.properties), fields, round4))
                                  else old(f.properties)
    {
      var feat := features[i];
      InjectOne(feat, fields, round4);
      if feat in done {
        InjectionIdempotent(old(feat.properties), mode, round4);
      }
      done := done + {feat};
    }
  }

  /** What `build_map` hands to the map library: the layer's name, the fields
      its style and tooltip read, and the viewport to fit (None where app.py
      would pass NaN and infinite bounds). */
  datatype RiskMap = RiskMap(layerName: string, fields: Fields, view: Option<Frame>)

  /** `build_map`: resolve the mode, frame the features, then inject the
      tooltips. Colours are the same whether the style function sees a
      feature before or after injection. */
  method BuildMap(features: seq<Feature>, mode: string, round4: Value -> Option<string>) returns (m: RiskMap)
    modifies set f | f in features
    ensures m.fields == Resolve(mode) && m.layerName == Resolve(mode).layerName
    ensures m.view == ViewOf(Extent(AllPoints(Geometries(features))))
    ensures forall i :: 0 <= i < |features| ==>
              && features[i].properties == Some(WithTooltip(old(features[i].properties), m.fields, round4))
              && StyleOf(features[i].properties, m.fields) == StyleOf(old(features[i].properties), m.fields)
  {
    var fields := Resolve(mode);
    var view := GetBounds(features);
    InjectTooltips(features, mode, round4);
    m := RiskMap(fields.layerName, fields, view);
    forall i | 0 <= i < |features|
      ensures StyleOf(features[i].properties, fields) == StyleOf(old(features[i].properties), fields)
    {
      InjectionKeepsStyle(old(features[i].properties), mode, round4);
    }
  }
}
