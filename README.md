# Node map: the data layer of the map script, in Dafny

The map page shades every country by its node count (a choropleth) and
places a circle marker on every city with enough nodes. It also draws two
legends. All of this is done by `script.js`. Most of that file calls the
Leaflet mapping library and the browser. The logic of its own is a small
pure data layer, and this project models that layer and proves its
properties:

- `Buckets` (`buckets.dfy`) has the two colour scales. `getColor` shades
  countries in six colours and `getCityColor` shades cities in five. Both
  compare the count against descending `>` thresholds. There is also an
  independent reference definition: the colour is the palette entry indexed
  by how many thresholds the count is above. Agreement with it gives
  monotonicity; the colour bands, in both directions, are proved from the
  branches themselves.
- `Countries` (`countries.dfy`) has `getCountryCode`. It is a fallback chain
  over the feature properties `ISO3166-1-Alpha-2`, `iso_a2`, `adm0_a3` and
  `name`, with JavaScript truthiness, and it lower-cases the value it picks.
  The module also has the count lookup shared by `styleCountry` and
  `onEachFeature` (`code ? (countries[code] || 0) : 0`), the fill colour, and
  the popup gate (count above `minCount` = 10 and a truthy name).
- `Cities` (`cities.dfy`) has the city-marker loop. It is a method over an
  enumeration of the city-count table. The spec function `Markers` states
  what the loop places, and the lemmas characterise that as a filter/join:
  a city gets a marker exactly when its count is above 10 and it has a
  coordinate entry.
- `Legend` (`legend.dfy`) has the legend loop of `addLegends`, as one method
  parameterised by the colour scale, the way `addLegends` takes `getColor`
  and `getCityColor`. The lemmas give the labels, the swatch colours of both
  legends, and the fact that each swatch matches the counts its label names.
  Adjacent labels share their boundary grade (`100&ndash;200` and `200+`
  both name 200); a boundary count takes the colour of the lower row, so the
  lemmas read each label as the half-open range (grade, next grade].
- `Wrappers` (`wrappers.dfy`) has `Option`. JavaScript's `null` and
  `undefined` become `None`.

Feature properties are a `map<string, Option<string>>`. A missing key is
`undefined`, `None` is JSON `null`, and a value is truthy when it is present,
not null and not the empty string. Counts are `int`. Coordinates are a type parameter
`C`, passed through to the marker unchanged.

## Model

| member | source | states |
|---|---|---|
| `Buckets.CountryColor` | script.js:39-46 | `getColor` always returns one of the six country colours |
| `Buckets.CityColor` | script.js:49-55 | `getCityColor` always returns one of the five city colours |
| `Buckets.CountryBucket` | script.js:39-46 | a country count has a bucket index below 6, and its colour is the palette entry at that index |
| `Buckets.CityBucket` | script.js:49-55 | a city count has a bucket index below 5, and its colour is the palette entry at that index |
| `Buckets.CountryRank` | script.js:39-46 | `getColor` agrees with the reference definition: the palette entry indexed by how many of the thresholds 10, 20, 50, 100, 200 the count is above |
| `Buckets.CityRank` | script.js:49-55 | `getCityColor` agrees with the reference definition over the thresholds 10, 20, 50, 100 |
| `Buckets.ExceededBand` | script.js:40-44 | over ascending thresholds, a count is above exactly k of them iff it lies in the k-th band |
| `Buckets.ExceededMonotone` | script.js:40-44 | a larger count is above at least as many thresholds |
| `Buckets.CountryMonotone` | script.js:39-46 | `getColor` is monotone: if a <= b, the bucket of a is no higher than the bucket of b |
| `Buckets.CityMonotone` | script.js:49-55 | `getCityColor` is monotone in the same sense |
| `Buckets.PalettesDistinct` | script.js:39-55 | the six country colours are pairwise distinct, and so are the five city colours |
| `Buckets.CountryColorDeterminesBucket` | script.js:39-46 | two counts get the same country colour iff they fall in the same bucket |
| `Buckets.CountryBands` | script.js:39-46 | each country colour holds exactly for its band: > 200, (100, 200], (50, 100], (20, 50], (10, 20], <= 10 |
| `Buckets.CityBands` | script.js:49-55 | each city colour holds exactly for its band: > 100, (50, 100], (20, 50], (10, 20], <= 10 |
| `Buckets.CountryPaletteReached` | script.js:39-46 | every one of the six country colours is the colour of some count |
| `Buckets.Samples` | script.js:39-55 | getColor(201) = #800026, getColor(200) = #BD0026, getColor(10) = getColor(0) = #FFEDA0, getCityColor(10) = #a1d99b, getCityColor(15) = #74c476 |
| `Countries.Lower` | script.js:60-63 | lower-casing keeps the length, maps each upper-case letter to its lower-case letter, leaves other characters alone, and leaves no upper-case letter |
| `Countries.CountryCode` | script.js:58-65 | a resolved country code is never empty |
| `Countries.CountryCodeIsFallback` | script.js:58-65 | `getCountryCode` is the lower-cased value of the first truthy field of `ISO3166-1-Alpha-2`, `iso_a2`, `adm0_a3`, `name`, and null when there is none |
| `Countries.FirstTruthyPriority` | script.js:59-64 | a fallback chain yields the value of key i exactly when key i is truthy and no earlier key is, and nothing exactly when no key is truthy |
| `Countries.CountryCodePriority` | script.js:58-65 | null when the properties are absent; null iff no identifier field is truthy; otherwise the code comes from field i exactly when it is truthy and every higher-priority field is not |
| `Countries.FeatureCount` | script.js:69-70 | a non-zero count comes from a resolved code that is in the country table |
| `Countries.CountDefault` | script.js:70 | the count is the stored value when the code resolves and is in the table, and 0 when the code is null or not in the table |
| `Countries.FillColor` | script.js:68-72 | the fill colour is a country colour, and anything but the lowest colour means the code resolved to an entry of the table |
| `Countries.CountryPopup` | script.js:96-102 | a bound popup always shows a count above `minCount` |
| `Countries.PopupGate` | script.js:97-101 | a popup is bound iff the feature has a truthy name and the table stores more than 10 for its code; the popup shows that name and that count |
| `Countries.PopupCountryIsShaded` | script.js:70-100 | a country with a popup is never drawn in the lowest colour |
| `Countries.Samples` | script.js:58-100 | `{iso_a2:"US", name:"United States"}` resolves to "us"; `{}` resolves to null with count 0; a count of 10 gets no popup and 11 gets one |
| `Cities.MarkersExactly` | script.js:108-127 | a marker is placed exactly for each visited city with a count above 10 and a coordinate entry, at its coordinates, in the `getCityColor` colour of its count |
| `Cities.MarkerCityVisited` | script.js:108-111 | every placed marker belongs to a visited city |
| `Cities.MarkersDistinctCities` | script.js:108-127 | when the visited cities are distinct, no city gets two markers |
| `Cities.PlaceMarkers` | script.js:108-127 | the loop over an enumeration of the city table places exactly the markers of the spec function, exactly the eligible cities, one marker per city |
| `Cities.MarkersOrderIndependent` | script.js:108 | the set of markers is the same for every order in which `for...in` visits the cities |
| `Cities.Samples` | script.js:108-127 | Paris with 15 nodes is placed at its coordinates in #74c476; without a coordinate entry it is skipped; 10 nodes give no marker and 11 give one |
| `Legend.DigitsRoundTrip` | script.js:147 | the decimal text of a grade in a label reads back as that grade |
| `Legend.BuildLegend` | script.js:145-162 | for either colour scale, the legend loop yields one row per grade, in grade order; row i has swatch colour `bucket(grades[i]+1)` and the label of grade i (the grade, then `&ndash;` and the next grade when that is truthy, else `+`) |
| `Legend.LegendLabels` | script.js:147 | over ascending non-negative grades, every row but the last is labelled `g&ndash;next` and the last `g+` |
| `Legend.CountryLegendColors` | script.js:143-148 | the country legend's swatches are the six `getColor` colours, lowest first, pairwise distinct, so they cover every bucket |
| `Legend.CityLegendColors` | script.js:157-162 | the city legend's four swatches are the `getCityColor` colours above the lowest, pairwise distinct |
| `Legend.CountryLegendTruthful` | script.js:143-147 | a count above a country row's grade and at most the next grade (any count at or below 10 for the first row, `0&ndash;10`, including the default count 0; any count above 200 for the last row) gets that row's swatch colour; a boundary grade shared by two labels gets the lower row's colour |
| `Legend.CityLegendTruthful` | script.js:157-161 | a count above a city row's grade and at most the next grade (above 100 for the last row) gets that row's swatch colour; a boundary grade shared by two labels gets the lower row's colour |
| `Legend.MarkerColorInCityLegend` | script.js:110-115 | every placed city marker's colour is one of the city legend's swatches |
| `Legend.LegendText` | script.js:143-161 | the first and last labels are "0&ndash;10" and "200+" for countries, and "10&ndash;20" and "100+" for cities |

## Left out

- Map construction, the tile layer, the panes and their z-index, `L.geoJson`,
  `L.circleMarker`, `L.control` and tooltip binding. These are calls into the
  Leaflet library, whose code is not part of this model. A placed marker and a
  bound popup are values here, not library objects.
- Applying `styleCountry` and `onEachFeature` to each feature is done inside
  `L.geoJson`. The model gives the per-feature functions only.
- `fetch`, `Promise.all`, `.json()`, the HTTP status check, the empty-GeoJSON
  guard, and the `try`/`catch` with console logging. This is browser I/O and
  asynchronous control flow. The count and coordinate tables are parameters.
- The fixed style literals (weights, opacities, dash array, radius) and the
  HTML markup of popups, tooltips and legends. Only the legend label text
  (`grade&ndash;next` or `grade+`) and the swatch colour are modelled.
- The order in which `for...in` visits the city table. `Cities.PlaceMarkers`
  takes an enumeration `order` of the table's keys, with each key once. Its
  set of markers is proved independent of that order.
- Latitude and longitude. They are floating-point values and are passed
  through unchanged, so coordinates are the type parameter `C`. A coordinate
  entry is truthy when it is present and not null. Arrays are always truthy
  in JavaScript.
- Feature property values other than strings and null (numbers, booleans,
  objects) are not modelled. The identifier fields are strings in the
  boundary file.
- Counts that are not integers (fractions, `NaN`) are not modelled. Counts
  are `int`, and `countries[code] || 0` is modelled with integer truthiness
  (0 is falsy).
- Countries.Lower: lower-cases ASCII letters only. JavaScript's
  `toLowerCase` also maps non-ASCII letters by Unicode rules, so a non-ASCII
  `name` is lower-cased less than the source does.
