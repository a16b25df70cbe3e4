/** Per-feature styling: app.py's `PALETTE` and the `style_fn` closure of
    `build_map`. */
module Styling {
  import opened GeoJson
  import opened Modes

  /** `PALETTE`, in its declared order: risk category to hex colour. */
  const Palette: seq<(string, string)> := [
    ("Very Low", "#7fc97f"),
    ("Low", "#beed90"),
    ("Moderate", "#ffff99"),
    ("Moderately High", "#fdc86e"),
    ("High", "#fdae61"),
    ("Very High", "#d7191c")
  ]

  /** The category assumed when a feature has no bucket property. */
  const DefaultBucket: string := "Moderate"
  /** The colour of a bucket value that is not a palette category. */
  const FallbackColor: string := "#3186cc"

  predicate IsCategory(name: string) {
    exists i :: 0 <= i < |Palette| && Palette[i].0 == name
  }

  /** The first entry of `entries` whose key is `key`. */
  function Lookup(entries: seq<(string, string)>, key: string): (r: Option<string>)
    ensures r.None? <==> forall i :: 0 <= i < |entries| ==> entries[i].0 != key
    ensures r.Some? ==> exists i :: 0 <= i < |entries| && entries[i] == (key, r.value)
  {
    if entries == [] then None
    else if entries[0].0 == key then Some(entries[0].1)
    else
      var r := Lookup(entries[1..], key);
      assert forall i :: 1 <= i < |entries| ==> entries[i] == entries[1..][i - 1];
      r
  }

  /** `PALETTE.get(key, "#3186cc")`: a string that is a category name gets
      that category's colour; any other value, null and numbers included,
      gets the fallback. */
  function PaletteGet(key: Value): (c: string)
    ensures key.Str? && IsCategory(key.s) ==> exists i :: 0 <= i < |Palette| && Palette[i] == (key.s, c)
    ensures !(key.Str? && IsCategory(key.s)) ==> c == FallbackColor
  {
    match key
    case Str(name) =>
      (match Lookup(Palette, name)
       case Some(colour) => colour
       case None => FallbackColor)
    case _ => FallbackColor
  }

  /** Each of the six categories is drawn in its own colour. */
  lemma PaletteColours()
    ensures forall i :: 0 <= i < |Palette| ==> PaletteGet(Str(Palette[i].0)) == Palette[i].1
  {
  }

  /** What `style_fn` returns. */
  datatype Style = Style(color: string, weight: int, opacity: real)

  /** The properties dictionary a reader sees: `feat.get("properties", {})`. */
  function PropsOrEmpty(props: Option<Props>): Props {
    match props
    case Some(p) => p
    case None => map[]
  }

  /** `style_fn`: the colour of the feature's risk bucket, falling back first
      to "Moderate" when the bucket property is missing and then to
      "#3186cc" when the bucket is not a palette category; weight 3 and
      opacity 0.9 always. */
  function StyleOf(props: Option<Props>, fields: Fields): (s: Style)
    ensures s.weight == 3 && s.opacity == 0.9
    ensures fields.bucket !in PropsOrEmpty(props) ==> s.color == "#ffff99"
    ensures fields.bucket in PropsOrEmpty(props) ==> s.color == PaletteGet(PropsOrEmpty(props)[fields.bucket])
  {
    var p := PropsOrEmpty(props);
    var bucket := if fields.bucket in p then p[fields.bucket] else Str(DefaultBucket);
    PaletteColours();
    assert Palette[2] == (DefaultBucket, "#ffff99");
    Style(PaletteGet(bucket), 3, 0.9)
  }

  /** The colour `style_fn` gives: the palette colour of a bucket that is a
      category name, "#ffff99" (the "Moderate" colour) for a missing bucket,
      and "#3186cc" for any other bucket. */
  lemma StyleColour(props: Option<Props>, fields: Fields)
    ensures forall i :: (0 <= i < |Palette| && fields.bucket in PropsOrEmpty(props)
                         && PropsOrEmpty(props)[fields.bucket] == Str(Palette[i].0))
                        ==> StyleOf(props, fields).color == Palette[i].1
    ensures fields.bucket !in PropsOrEmpty(props) ==> StyleOf(props, fields).color == "#ffff99"
    ensures (fields.bucket in PropsOrEmpty(props)
             && !(PropsOrEmpty(props)[fields.bucket].Str? && IsCategory(PropsOrEmpty(props)[fields.bucket].s)))
            ==> StyleOf(props, fields).color == FallbackColor
  {
    PaletteColours();
  }

  /** Every feature is drawn in one of the six palette colours or in the
      fallback colour, and the colour depends on the bucket property alone. */
  lemma StyleColorRange(props: Option<Props>, other: Option<Props>, fields: Fields)
    ensures StyleOf(props, fields).color == FallbackColor
            || exists i :: 0 <= i < |Palette| && Palette[i].1 == StyleOf(props, fields).color
    ensures ((fields.bucket in PropsOrEmpty(props)) == (fields.bucket in PropsOrEmpty(other))
             && (fields.bucket in PropsOrEmpty(props) ==> PropsOrEmpty(props)[fields.bucket] == PropsOrEmpty(other)[fields.bucket]))
            ==> StyleOf(props, fields) == StyleOf(other, fields)
  {
  }
}
