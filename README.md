# Pipe risk map: a Dafny model of its core

The dashboard loads a GeoJSON collection of water-pipe segments that two
models have scored (Poisson regression and gradient-boosted trees). It then
draws the segments on a map, coloured by risk bucket, with a hover text per
segment. This project models the computations behind that map, all from `app.py`:

- **Viewport scan** (`get_bounds`). This is an imperative method,
  `Bounds.GetBounds`. It walks the features and reads only `LineString` and
  `MultiLineString` geometries, flattening the latter. It keeps four running
  values, the minimum and maximum latitude and longitude. It returns the
  midpoint centre and the `[[minlat, minlon], [maxlat, maxlon]]` rectangle.
  Positions are (longitude, latitude), as in section 3.1.1 of RFC 7946. The
  source starts the running values at +inf/-inf. The model calls that start
  the empty extent (`None`). A scan that sees no point returns `None`.
- **Mode resolution** (the `if mode == "Poisson Regression"` branch of
  `build_map`). This is the function `Modes.Resolve`.
- **Styling** (`PALETTE` and `style_fn`). These are `Styling.PaletteGet` and
  `Styling.StyleOf`, with the two fallbacks: a missing bucket becomes
  `"Moderate"`, and a bucket that is not a category gets `"#3186cc"`.
- **Hover text** (`tooltip_html`). This is `Tooltips.Tooltip`, built from
  `TooltipLines` and `Join`.
- **Tooltip injection** (the loop over `gj["features"]`). This is
  `Injection.InjectTooltips`. A feature is a class whose `properties` field
  the loop updates in place. `Injection.BuildMap` strings the steps
  together in `build_map`'s order.

Two things the program does not compute are parameters of the model:

- `round(float(x), 4)`, printed, is the parameter
  `round4: Value -> Option<string>`. It gives `None` where `float()` raises.
- The printed form of a JSON number is carried by `Value.Num`.

Three behaviours of `app.py` are worth stating plainly:

- The rate line's label is `λ_hat`.
- With no points, the centre `app.py` computes is NaN, since inf + (-inf) is NaN.
  It is not infinite. `Bounds.GetBounds` returns `None` there.
- A feature whose geometry member is JSON null makes `app.py` raise (see
  Findings). `Bounds.ExtentAsWritten` models that. `Bounds.GetBounds` and
  `Injection.BuildMap` follow the corrected behaviour from the Findings row:
  they skip such a feature, as they skip a feature with no geometry.

## Model

| member | source | states |
|---|---|---|
| `Bounds.GetBounds` | app.py:24-40 | The result is the centre and rectangle of the exact extent of all points of all line features. It is `None` exactly when no such point exists. Every point lies in the rectangle, and the centre lies in it too. |
| `Bounds.Include` | app.py:35-37 | The new box holds the position and the old box. Each of its sides is either the old side or the position's coordinate. |
| `Bounds.ScanFrom` | app.py:25-37 | The running bounds stay at the empty start only when nothing was seen. They only ever widen, and min stays at or below max. |
| `Bounds.Extent` | app.py:25-37 | The bounds are empty exactly for no points. Otherwise min is at or below max on both axes. |
| `Bounds.ExtentIsTight` | app.py:25-37 | The scan stays empty exactly for an empty point sequence. Otherwise every point lies within [minLat, maxLat] × [minLon, maxLon], and each of the four bounds is attained by some point. |
| `Bounds.ExtentIgnoresOrder` | app.py:27-37 | Two point sequences that are permutations of each other give the same bounds. |
| `Bounds.AllPointsAppend` | app.py:27-37 | The points of two feature lists, one after the other, are the first list's points followed by the second's. |
| `Bounds.AllPointsMultiset` | app.py:27-37 | Two feature lists that are permutations of each other hold the same points, each as often. |
| `Bounds.FeatureOrderIrrelevant` | app.py:27-37 | Two feature lists that are permutations of each other give the same bounds. |
| `Bounds.ScanAppend` | app.py:27-37 | Scanning `xs + ys` equals scanning `xs` and then continuing from that state with `ys`. The running values carry over from feature to feature. |
| `Bounds.ViewOfExtent` | app.py:25-39 | The viewport is empty exactly when there is no point. Otherwise its rectangle holds every point and its centre. |
| `Bounds.FrameOf` | app.py:38-39 | The rectangle is `[[minLat, minLon], [maxLat, maxLon]]`. The centre is equidistant from min and max on each axis, and so lies between them. |
| `Bounds.PointsOf` | app.py:28-34 | A feature whose geometry is neither a LineString nor a MultiLineString yields no point. |
| `Bounds.UnsupportedContributeNothing` | app.py:28-34 | Dropping every feature without a line geometry changes neither the points scanned nor the bounds. Such features include other types, a missing geometry and a null geometry. |
| `Bounds.UnsupportedFeatureKeepsBounds` | app.py:28-34 | Appending a feature of an unsupported kind leaves the bounds unchanged. |
| `Bounds.Flatten` | app.py:32 | A point is in the flattened MultiLineString exactly when it is in one of its lines. |
| `Bounds.MultiLineStringAsLines` | app.py:31-32 | A MultiLineString has the same points as the LineString of its lines' concatenation. It gives the same bounds as its lines taken as separate LineString features. |
| `Bounds.NullGeometryRaises` | app.py:28-29 | A collection holding one segment and one feature with a null geometry makes the scan as written raise. The model gives the segment's bounds. |
| `Bounds.ExtentAsWritten` | app.py:27-37 | The scan as written raises exactly when some feature's geometry member is JSON null. |
| `Bounds.AsWrittenAgreesWithoutNull` | app.py:27-37 | Without null geometries, the scan as written returns the model's bounds. |
| `Modes.Resolve` | app.py:44-53 | The Poisson fields and the "Risk (Poisson)" layer are selected if and only if the mode is exactly "Poisson Regression". Every other string selects the GBT fields and "Risk (GBT)". The three field names are distinct. |
| `Styling.PaletteGet` | app.py:14-21 | A string that is a category name gets that category's colour. Any other value, including null and numbers, gets "#3186cc". |
| `Styling.PaletteColours` | app.py:14-21 | Each of the six categories is drawn in the colour listed beside it. |
| `Styling.StyleOf` | app.py:58-62 | Weight is always 3 and opacity 0.9. A missing bucket gives "#ffff99", the colour of "Moderate". A present bucket gives its palette lookup. |
| `Styling.StyleColour` | app.py:58-62 | A bucket that is a category name gives that category's colour. A missing bucket gives "#ffff99". Any other bucket gives "#3186cc". |
| `Styling.StyleColorRange` | app.py:58-62 | The colour is one of the six palette colours or "#3186cc". It depends only on the bucket property. |
| `GeoJson.Render` | app.py:66 | A string prints as itself, null as "None", and true and false as "True" and "False". |
| `Tooltips.PresentKeys` | app.py:66 | No more keys are kept than listed, and every kept key is present in the properties. |
| `Tooltips.PresentKeysMembers` | app.py:65-66 | A key is kept exactly when it is one of the listed keys and present in the properties. |
| `Tooltips.PresentKeysInOrder` | app.py:65-66 | The kept keys are the present keys, at strictly increasing positions of the key list, with none skipped. |
| `Tooltips.PresentKeysCount` | app.py:65-66 | With distinct keys, the number of kept keys is the number of distinct present keys. |
| `Tooltips.ShowEstimate` | app.py:68-75 | A missing or null estimate shows "None". A value `float` accepts shows its rounded form. Any other value shows raw. |
| `Tooltips.TooltipLineCount` | app.py:64-76 | There are (number of present keys among id_segmen, Jenis_pipa, Diameter, Length, DMA_norm) + 3 lines. |
| `Tooltips.TooltipBaseLines` | app.py:65-66 | The first lines are `key: value`, one for every present display key, in the fixed key order. |
| `Tooltips.TooltipLastLines` | app.py:68-76 | After the base lines come the λ_hat line, the P(≥1) line and the Risk line. Risk is "-" when the bucket field is absent. |
| `Tooltips.Tooltip` | app.py:64-77 | Whatever the properties, the text ends with the Risk line. |
| `Tooltips.JoinEnds` | app.py:77 | A join of one or more lines starts with the first line and ends with the last. |
| `Tooltips.TooltipText` | app.py:76-77 | The text is the base lines joined by `<br>`, followed by `<br>` and the three estimate lines, each separated by `<br>`. The `<br>` before them is absent when no base line exists. |
| `Tooltips.PresentKeysIgnoreOtherKey` | app.py:65-66 | Adding a key outside the listed ones does not change which keys are shown. |
| `Tooltips.TooltipKeyNotRead` | app.py:64-77 | For every mode, "_tooltip" is not among the keys the hover text reads. |
| `Tooltips.TooltipIgnoresTooltipKey` | app.py:64-77 | Storing any value under "_tooltip" leaves the hover text unchanged. |
| `Injection.WithTooltip` | app.py:90-92 | The new properties have the old keys plus "_tooltip". "_tooltip" holds the hover text of the old properties, which are empty when missing. Every other key keeps its value. |
| `Injection.InjectionIdempotent` | app.py:90-92 | Injecting twice gives the same dictionary as injecting once. |
| `Injection.InjectionKeepsStyle` | app.py:90-92 | Injection does not change a feature's style. |
| `Injection.InjectOne` | app.py:91-92 | The feature's properties become its old properties with "_tooltip" injected. An empty dictionary stands in when there were none. |
| `Injection.InjectTooltips` | app.py:90-92 | After the loop, every listed feature's properties are its old properties with "_tooltip" injected. This holds for features listed more than once too. |
| `Injection.BuildMap` | app.py:42-92 | The map uses the resolved fields and layer name. Its viewport is that of the features' geometries. Every feature gains its tooltip, and every feature's style is unchanged by that. |

## Findings

| source | as written | input that shows it | evidently intended | confidence | as-written member | corrected member |
|---|---|---|---|---|---|---|
| app.py:28-29 | `feat.get("geometry", {})` yields `None` for a feature whose geometry member is JSON null. The next `geom.get("type")` then raises AttributeError and aborts the whole map. | `[LineString([(106.8, -6.2)]), geometry null]`. A null geometry is an unlocated feature, which section 3.2 of RFC 7946 allows. | The `{}` default shows the intent to skip features without a geometry. A null geometry should be skipped the same way, leaving the bounds of the located segments. | medium, not executed | `Bounds.NullGeometryRaises` | `Bounds.UnsupportedContributeNothing` |

## Left out

- The Streamlit shell: page config, title, sidebar radio, file uploaders and `st_folium` rendering. These are UI with no computation.
- `load_geojson`, `json.load` and the `st.cache_data` cache. These are file I/O and a library cache. The input is an already-parsed list of `GeoJson.Feature` objects.
- The folium calls: `Map` (with `zoom_start=13` and its tiles), `GeoJson`, `GeoJsonTooltip`, `LayerControl`, `fit_bounds` with its padding, and `add_to`. They hand data to an unseen rendering library. `Injection.BuildMap` returns only the data they receive: layer name, fields and viewport.
- The legend HTML. It is static markup, and lists the same six categories and colours as `Styling.Palette`, in the same order.
- The highlight function `{"weight": 5, "opacity": 1.0}`. It is a constant, independent of the data.
- `Tooltips.ShowEstimate`: it does not model float parsing or rounding to 4 places (0.123456789 shown as 0.1235). These are IEEE floating point. The parameter `round4` stands for them.
- `GeoJson.Render`: a number's printed form is taken as given in `Value.Num`. It is not computed from the number.
- `Bounds.FrameOf`: the midpoint is the exact real midpoint, not a double-precision sum halved. Coordinates are reals, so overflow and rounding of doubles are not modelled.
- `Bounds.GetBounds`: when no point exists it returns `None`. `app.py` returns a NaN centre and bounds of `[[inf, inf], [-inf, -inf]]` there.
- Positions with an altitude, or with any number of components other than two. Python's `for lon, lat in coords` raises on them, and the model's `Position` has exactly two.
- A line geometry whose `coordinates` member is JSON null. `for lon, lat in None` at app.py:35 and `for line in None` at app.py:32 raise TypeError on it. `GeoJson.Geometry` cannot represent it.
- A line geometry without a `coordinates` member. It is represented as an empty line, which is what `geom.get("coordinates", [])` gives.
- A `properties` member whose value is JSON null. `style_fn` and the injection loop raise on it, as with the null geometry above. The model's feature has either a properties map or none.
- Property values that are JSON arrays or objects. `PALETTE.get` raises on an unhashable bucket. `GeoJson.Value` holds scalars only.
- Key order inside a properties dictionary. Python appends `_tooltip` last; a Dafny `map` has no order.
- Two distinct features sharing one properties dictionary object. `json.load` never produces that. Each `GeoJson.Feature` holds its own dictionary value.
