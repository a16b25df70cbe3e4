/** The hover text of a feature: the `tooltip_html` closure of app.py's
    `build_map`. */
module Tooltips {
  import opened GeoJson
  import opened Modes

  /** The descriptive attributes shown first, in this order, when present. */
  const ShowKeys: seq<string> := ["id_segmen", "Jenis_pipa", "Diameter", "Length", "DMA_norm"]

  const Separator: string := "<br>"

  /** The property under which the injection loop stores the hover text. */
  const TooltipKey: string := "_tooltip"

  /** `[k for k in keys if k in props]`. */
  function PresentKeys(keys: seq<string>, props: Props): (r: seq<string>)
    ensures |r| <= |keys|
    ensures forall i :: 0 <= i < |r| ==> r[i] in props
  {
    if keys == [] then []
    else PresentKeys(keys[..|keys| - 1], props) + (if keys[|keys| - 1] in props then [keys[|keys| - 1]] else [])
  }

  /** A key is kept exactly when it is listed and present. */
  lemma {:induction false} PresentKeysMembers(keys: seq<string>, props: Props)
    ensures forall k :: k in PresentKeys(keys, props) <==> k in keys && k in props
  {
    if keys != [] {
      var init, last := keys[..|keys| - 1], keys[|keys| - 1];
      PresentKeysMembers(init, props);
      assert keys == init + [last];
    }
  }

  /** The positions in `keys` of the keys `PresentKeys` keeps. */
  ghost function KeptIndices(keys: seq<string>, props: Props): (idx: seq<int>)
    ensures |idx| == |PresentKeys(keys, props)|
    ensures forall i :: 0 <= i < |idx| ==> 0 <= idx[i] < |keys|
  {
    if keys == [] then []
    else KeptIndices(keys[..|keys| - 1], props) + (if keys[|keys| - 1] in props then [|keys| - 1] else [])
  }

  /** `r` is the keys of `keys` at the positions `idx`, all present. */
  ghost predicate Selects(r: seq<string>, keys: seq<string>, idx: seq<int>, props: Props) {
    |r| == |idx| && forall i :: 0 <= i < |r| ==> 0 <= idx[i] < |keys| && r[i] == keys[idx[i]] && r[i] in props
  }

  ghost predicate Increasing(idx: seq<int>) {
    forall i, j :: 0 <= i < j < |idx| ==> idx[i] < idx[j]
  }

  /** Every position of a present key is among `idx`. */
  ghost predicate CoversPresent(keys: seq<string>, props: Props, idx: seq<int>) {
    forall j :: 0 <= j < |keys| && keys[j] in props ==> j in idx
  }

  /** `PresentKeys` keeps exactly the present keys and keeps them in their
      order in `keys`: its i-th key is the key at a strictly increasing
      position, and every position holding a present key is among them. */
  lemma PresentKeysInOrder(keys: seq<string>, props: Props)
    ensures Selects(PresentKeys(keys, props), keys, KeptIndices(keys, props), props)
    ensures Increasing(KeptIndices(keys, props))
    ensures CoversPresent(keys, props, KeptIndices(keys, props))
  {
    KeptIndicesSelect(keys, props);
    KeptIndicesIncrease(keys, props);
    KeptIndicesComplete(keys, props);
  }

  lemma {:induction false} KeptIndicesSelect(keys: seq<string>, props: Props)
    ensures Selects(PresentKeys(keys, props), keys, KeptIndices(keys, props), props)
  {
    if keys != [] {
      var init, last := keys[..|keys| - 1], keys[|keys| - 1];
      KeptIndicesSelect(init, props);
      var r0, idx0 := PresentKeys(init, props), KeptIndices(init, props);
      assert forall i :: 0 <= i < |init| ==> init[i] == keys[i];
      if last in props {
        assert PresentKeys(keys, props) == r0 + [last];
        assert KeptIndices(keys, props) == idx0 + [|keys| - 1];
      } else {
        assert PresentKeys(keys, props) == r0;
        assert KeptIndices(keys, props) == idx0;
      }
    }
  }

  lemma {:induction false} KeptIndicesIncrease(keys: seq<string>, props: Props)
    ensures Increasing(KeptIndices(keys, props))
  {
    if keys != [] {
      var init := keys[..|keys| - 1];
      KeptIndicesIncrease(init, props);
      var idx0 := KeptIndices(init, props);
      if keys[|keys| - 1] in props {
        assert KeptIndices(keys, props) == idx0 + [|keys| - 1];
      } else {
        assert KeptIndices(keys, props) == idx0;
      }
    }
  }

  lemma {:induction false} KeptIndicesComplete(keys: seq<string>, props: Props)
    ensures CoversPresent(keys, props, KeptIndices(keys, props))
  {
    if keys != [] {
      var init := keys[..|keys| - 1];
      KeptIndicesComplete(init, props);
      var idx0 := KeptIndices(init, props);
      assert forall i :: 0 <= i < |init| ==> init[i] == keys[i];
      if keys[|keys| - 1] in props {
        assert KeptIndices(keys, props) == idx0 + [|keys| - 1];
      } else {
        assert KeptIndices(keys, props) == idx0;
      }
    }
  }

  /** With distinct keys, one line per present key: the count is the number of
      present keys. */
  lemma {:induction false} PresentKeysCount(keys: seq<string>, props: Props)
    requires forall i, j :: 0 <= i < j < |keys| ==> keys[i] != keys[j]
    ensures |PresentKeys(keys, props)| == |set k | k in keys && k in props|
  {
    if keys == [] {
      assert (set k | k in keys && k in props) == {};
    } else {
      var init, last := keys[..|keys| - 1], keys[|keys| - 1];
      assert forall i :: 0 <= i < |init| ==> init[i] == keys[i] && init[i] != last;
      PresentKeysCount(init, props);
      KeepSnoc(init, last, props);
      assert keys == init + [last];
    }
  }

  /** One more key adds one more kept key exactly when it is present and new. */
  lemma KeepSnoc(init: seq<string>, last: string, props: Props)
    requires last !in init
    ensures var before, all := (set k | k in init && k in props), (set k | k in init + [last] && k in props);
            |all| == |before| + (if last in props then 1 else 0)
  {
    var before, all := (set k | k in init && k in props), (set k | k in init + [last] && k in props);
    if last in props {
      assert all == before + {last};
    } else {
      assert all == before;
    }
  }

  /** A key that is not among `keys` plays no part in which keys are kept. */
  lemma {:induction false} PresentKeysIgnoreOtherKey(keys: seq<string>, props: Props, k: string, v: Value)
    requires k !in keys
    ensures PresentKeys(keys, props[k := v]) == PresentKeys(keys, props)
  {
    if keys != [] {
      PresentKeysIgnoreOtherKey(keys[..|keys| - 1], props, k, v);
    }
  }

  /** `props.get(key)`. */
  function Get(props: Props, key: string): (v: Option<Value>)
    ensures v.Some? <==> key in props
  {
    if key in props then Some(props[key]) else None
  }

  /** The text an estimate (lambda-hat, P(>=1)) shows. `round4` stands for
      `round(float(x), 4)` printed: `Some` with the printed rounded number when
      `float` accepts the value, `None` when it raises. A missing or null
      field shows "None"; an unparsable one its raw value. */
  function ShowEstimate(v: Option<Value>, round4: Value -> Option<string>): (t: string)
    ensures (v.None? || v.value.Null?) ==> t == "None"
    ensures v.Some? && !v.value.Null? && round4(v.value).Some? ==> t == round4(v.value).value
    ensures v.Some? && !v.value.Null? && round4(v.value).None? ==> t == Render(v.value)
  {
    match v
    case None => "None"
    case Some(Null) => "None"
    case Some(x) =>
      match round4(x)
      case Some(rounded) => rounded
      case None => Render(x)
  }

  /** `[f"{k}: {props[k]}" for k in keys if k in props]`. */
  function LinesFor(keys: seq<string>, props: Props): seq<string>
  {
    var present := PresentKeys(keys, props);
    seq(|present|, i requires 0 <= i < |present| => present[i] + ": " + Render(props[present[i]]))
  }

  /** The attribute lines, one per present display key. */
  function BaseLines(props: Props): seq<string>
  {
    LinesFor(ShowKeys, props)
  }

  /** `props.get(bucket_field, '-')`, printed. */
  function RiskText(props: Props, fields: Fields): string
  {
    if fields.bucket in props then Render(props[fields.bucket]) else "-"
  }

  /** The three lines that always follow the attribute lines. */
  function RateLine(props: Props, fields: Fields, round4: Value -> Option<string>): string
  {
    "λ_hat: " + ShowEstimate(Get(props, fields.rate), round4)
  }

  function ProbabilityLine(props: Props, fields: Fields, round4: Value -> Option<string>): string
  {
    "P(≥1): " + ShowEstimate(Get(props, fields.probability), round4)
  }

  function RiskLine(props: Props, fields: Fields): string
  {
    "Risk: " + RiskText(props, fields)
  }

  /** The lines of the hover text, before joining. */
  function TooltipLines(props: Props, fields: Fields, round4: Value -> Option<string>): seq<string>
  {
    BaseLines(props) + [RateLine(props, fields, round4), ProbabilityLine(props, fields, round4), RiskLine(props, fields)]
  }

  /** `s` starts with `prefix`. */
  predicate StartsWith(s: string, prefix: string) {
    prefix <= s
  }

  /** `s` ends with `suffix`. */
  predicate EndsWith(s: string, suffix: string) {
    |suffix| <= |s| && s[|s| - |suffix|..] == suffix
  }

  /** `sep.join(lines)`. */
  function Join(lines: seq<string>, sep: string): string
  {
    if lines == [] then ""
    else if |lines| == 1 then lines[0]
    else Join(lines[..|lines| - 1], sep) + sep + lines[|lines| - 1]
  }

  /** `tooltip_html(props)`: whatever the properties, the text closes with
      the Risk line (`TooltipText` gives its whole layout). */
  function Tooltip(props: Props, fields: Fields, round4: Value -> Option<string>): (t: string)
    ensures EndsWith(t, RiskLine(props, fields))
  {
    JoinEnds(TooltipLines(props, fields, round4), Separator);
    Join(TooltipLines(props, fields, round4), Separator)
  }

  /** A join starts with its first line and ends with its last. */
  lemma {:induction false} JoinEnds(lines: seq<string>, sep: string)
    requires lines != []
    ensures StartsWith(Join(lines, sep), lines[0])
    ensures EndsWith(Join(lines, sep), lines[|lines| - 1])
  {
    if |lines| > 1 {
      var init := lines[..|lines| - 1];
      JoinEnds(init, sep);
      assert init[0] == lines[0];
    }
  }

  // ---------- What the hover text holds ----------

  /** The i-th attribute line names the key at the i-th kept position and
      shows its value. */
  lemma LinesForSelect(keys: seq<string>, props: Props)
    ensures |LinesFor(keys, props)| == |KeptIndices(keys, props)|
    ensures forall i :: 0 <= i < |KeptIndices(keys, props)| ==>
              keys[KeptIndices(keys, props)[i]] in props
              && LinesFor(keys, props)[i] == keys[KeptIndices(keys, props)[i]] + ": " + Render(props[keys[KeptIndices(keys, props)[i]]])
  {
  }

  /** The hover text has one line per present display key, followed by
      exactly three more. */
  lemma TooltipLineCount(props: Props, fields: Fields, round4: Value -> Option<string>)
    ensures |TooltipLines(props, fields, round4)| == |set k | k in ShowKeys && k in props| + 3
  {
    PresentKeysCount(ShowKeys, props);
  }

  /** The display-key lines come first, in the fixed order id_segmen,
      Jenis_pipa, Diameter, Length, DMA_norm, as `key: value`, one for each
      present key. */
  lemma TooltipBaseLines(props: Props, fields: Fields, round4: Value -> Option<string>)
    ensures Increasing(KeptIndices(ShowKeys, props))
    ensures CoversPresent(ShowKeys, props, KeptIndices(ShowKeys, props))
    ensures forall i :: 0 <= i < |KeptIndices(ShowKeys, props)| ==>
              ShowKeys[KeptIndices(ShowKeys, props)[i]] in props
              && TooltipLines(props, fields, round4)[i]
                 == ShowKeys[KeptIndices(ShowKeys, props)[i]] + ": " + Render(props[ShowKeys[KeptIndices(ShowKeys, props)[i]]])
  {
    KeptIndicesIncrease(ShowKeys, props);
    KeptIndicesComplete(ShowKeys, props);
    LinesForSelect(ShowKeys, props);
    var base := BaseLines(props);
    assert forall i :: 0 <= i < |base| ==> TooltipLines(props, fields, round4)[i] == base[i];
  }

  /** After the display-key lines come exactly the lambda-hat, P(>=1) and Risk
      lines, Risk being "-" when the bucket field is absent. */
  lemma TooltipLastLines(props: Props, fields: Fields, round4: Value -> Option<string>)
    ensures TooltipLines(props, fields, round4)[|KeptIndices(ShowKeys, props)|]
            == "λ_hat: " + ShowEstimate(Get(props, fields.rate), round4)
    ensures TooltipLines(props, fields, round4)[|KeptIndices(ShowKeys, props)| + 1]
            == "P(≥1): " + ShowEstimate(Get(props, fields.probability), round4)
    ensures TooltipLines(props, fields, round4)[|KeptIndices(ShowKeys, props)| + 2]
            == "Risk: " + (if fields.bucket in props then Render(props[fields.bucket]) else "-")
  {
  }

  /** `Join(a + [x])` is `Join(a)`, the separator, then `x`. */
  lemma JoinSnoc(a: seq<string>, x: string, sep: string)
    requires a != []
    ensures Join(a + [x], sep) == Join(a, sep) + sep + x
  {
  }

  /** The joined text starts with the joined attribute lines and ends with the
      three estimate lines, each after a line break. */
  lemma TooltipText(props: Props, fields: Fields, round4: Value -> Option<string>)
    ensures var base := BaseLines(props);
            Tooltip(props, fields, round4)
            == (if base == [] then "" else Join(base, Separator) + Separator)
               + RateLine(props, fields, round4) + Separator
               + ProbabilityLine(props, fields, round4) + Separator
               + RiskLine(props, fields)
  {
    var base := BaseLines(props);
    var l1, l2, l3 := RateLine(props, fields, round4), ProbabilityLine(props, fields, round4), RiskLine(props, fields);
    assert TooltipLines(props, fields, round4) == base + [l1] + [l2] + [l3];
    if base == [] {
      assert [l1] + [l2] == [l1, l2];
      assert [l1, l2] + [l3] == [l1, l2, l3];
      assert base + [l1] + [l2] + [l3] == [l1, l2] + [l3];
      JoinSnoc([l1], l2, Separator);
      JoinSnoc([l1, l2], l3, Separator);
      assert "" + l1 == l1;
    } else {
      JoinSnoc(base, l1, Separator);
      JoinSnoc(base + [l1], l2, Separator);
      JoinSnoc(base + [l1] + [l2], l3, Separator);
    }
  }

  /** Every key the hover text reads, for the fields of any mode. */
  function ReadKeys(fields: Fields): (keys: set<string>)
    ensures forall k :: k in ShowKeys ==> k in keys
  {
    (set k | k in ShowKeys) + {fields.bucket, fields.probability, fields.rate}
  }

  /** Neither mode's tooltip reads its own output key. */
  lemma TooltipKeyNotRead(mode: string)
    ensures TooltipKey !in ReadKeys(Resolve(mode))
  {
  }

  /** Storing anything under "_tooltip" does not change the hover text, since
      "_tooltip" is not a key it reads. */
  lemma TooltipIgnoresTooltipKey(props: Props, mode: string, round4: Value -> Option<string>, v: Value)
    ensures Tooltip(props[TooltipKey := v], Resolve(mode), round4) == Tooltip(props, Resolve(mode), round4)
  {
    var fields := Resolve(mode);
    var q := props[TooltipKey := v];
    TooltipKeyNotRead(mode);
    PresentKeysIgnoreOtherKey(ShowKeys, props, TooltipKey, v);
    PresentKeysMembers(ShowKeys, props);
    var keys := PresentKeys(ShowKeys, props);
    assert forall i :: 0 <= i < |keys| ==> keys[i] in ShowKeys && q[keys[i]] == props[keys[i]];
    assert BaseLines(q) == BaseLines(props);
    assert Get(q, fields.rate) == Get(props, fields.rate);
    assert Get(q, fields.probability) == Get(props, fields.probability);
    assert RiskText(q, fields) == RiskText(props, fields);
    assert TooltipLines(q, fields, round4) == TooltipLines(props, fields, round4);
  }
}
