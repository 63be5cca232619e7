/**
 * Country side of the map: resolving a GeoJSON feature to a country code
 * (`getCountryCode`), looking its node count up with a default of 0 (the
 * expression shared by `styleCountry` and `onEachFeature`), the fill colour
 * of `styleCountry`, and the popup gate of `onEachFeature`.
 */
module Countries {
  import opened Wrappers
  import opened Buckets

  /**
   * A feature's `properties` object: a key that is absent is `undefined`, a key
   * mapped to `None` holds JSON `null`, otherwise it holds a string.
   */
  type Properties = map<string, Option<string>>

  /** JavaScript truthiness of `properties[key]`: present, not null, not the empty string. */
  predicate Truthy(p: Properties, key: string)
  {
    key in p && p[key].Some? && p[key].value != ""
  }

  /** The identifier fields `getCountryCode` tries, highest priority first. */
  const IdentifierKeys: seq<string> := ["ISO3166-1-Alpha-2", "iso_a2", "adm0_a3", "name"]

  /** Lower-casing of one character (ASCII letters only). */
  function LowerChar(c: char): char
  {
    if 'A' <= c <= 'Z' then (c as int + 32) as char else c
  }

  /** `String.prototype.toLowerCase`, restricted to ASCII letters. */
  function Lower(s: string): (r: string)
    ensures |r| == |s|
    ensures forall i :: 0 <= i < |s| && 'A' <= s[i] <= 'Z' ==> r[i] == (s[i] as int + 32) as char
    ensures forall i :: 0 <= i < |s| && !('A' <= s[i] <= 'Z') ==> r[i] == s[i]
    ensures forall i :: 0 <= i < |r| ==> !('A' <= r[i] <= 'Z')
  {
    if s == [] then [] else [LowerChar(s[0])] + Lower(s[1..])
  }

  /** `getCountryCode(feature)`, with `feature.properties` absent or null as `None`. */
  function CountryCode(properties: Option<Properties>): (r: Option<string>)
    ensures r.Some? ==> r.value != ""
  {
    if properties.None? then None
    else
      var p := properties.value;
      if Truthy(p, "ISO3166-1-Alpha-2") then Some(Lower(p["ISO3166-1-Alpha-2"].value))
      else if Truthy(p, "iso_a2") then Some(Lower(p["iso_a2"].value))
      else if Truthy(p, "adm0_a3") then Some(Lower(p["adm0_a3"].value))
      else if Truthy(p, "name") then Some(Lower(p["name"].value))
      else None
  }

  /** Reference definition of a fallback chain: the value of the first truthy key of `keys`. */
  function FirstTruthy(p: Properties, keys: seq<string>): (r: Option<string>)
  {
    if keys == [] then None
    else if Truthy(p, keys[0]) then Some(p[keys[0]].value)
    else FirstTruthy(p, keys[1..])
  }

  /** `getCountryCode` is the fallback chain over the identifier keys, lower-cased. */
  lemma CountryCodeIsFallback(p: Properties)
    ensures CountryCode(Some(p)) == match FirstTruthy(p, IdentifierKeys)
                                    case None => None
                                    case Some(v) => Some(Lower(v))
  {
    var ks := IdentifierKeys;
    assert ks[0] == "ISO3166-1-Alpha-2" && ks[1..] == ["iso_a2", "adm0_a3", "name"];
    assert ks[1..][1..] == ["adm0_a3", "name"] && ks[1..][1..][1..] == ["name"];
    assert ["name"][1..] == [];
    assert FirstTruthy(p, ["name"]) == if Truthy(p, "name") then Some(p["name"].value) else None;
    assert FirstTruthy(p, ["adm0_a3", "name"])
        == if Truthy(p, "adm0_a3") then Some(p["adm0_a3"].value) else FirstTruthy(p, ["name"]);
    assert FirstTruthy(p, ["iso_a2", "adm0_a3", "name"])
        == if Truthy(p, "iso_a2") then Some(p["iso_a2"].value) else FirstTruthy(p, ["adm0_a3", "name"]);
  }

  /**
   * The first truthy key wins: `FirstTruthy` yields the value of key `keys[i]`
   * exactly when that key is truthy and no earlier key is, and nothing exactly
   * when no key is truthy.
   */
  lemma {:induction false} FirstTruthyPriority(p: Properties, keys: seq<string>)
    ensures FirstTruthy(p, keys).None? <==> forall i :: 0 <= i < |keys| ==> !Truthy(p, keys[i])
    ensures forall i :: 0 <= i < |keys| && Truthy(p, keys[i]) && (forall j :: 0 <= j < i ==> !Truthy(p, keys[j]))
                        ==> FirstTruthy(p, keys) == Some(p[keys[i]].value)
  {
    if keys != [] {
      FirstTruthyPriority(p, keys[1..]);
      forall i | 0 <= i < |keys| && Truthy(p, keys[i]) && (forall j :: 0 <= j < i ==> !Truthy(p, keys[j]))
        ensures FirstTruthy(p, keys) == Some(p[keys[i]].value)
      {
        if i > 0 {
          assert !Truthy(p, keys[0]);
          assert keys[1..][i - 1] == keys[i];
          assert forall j :: 0 <= j < i - 1 ==> keys[1..][j] == keys[j + 1];
        }
      }
      if FirstTruthy(p, keys).None? {
        forall i | 0 <= i < |keys| ensures !Truthy(p, keys[i]) {
          if i > 0 { assert keys[1..][i - 1] == keys[i]; }
        }
      }
    }
  }

  /**
   * Priority of `getCountryCode`: the code comes from identifier field `i` exactly
   * when that field is truthy and every higher-priority field is not; there is no
   * code when the properties are absent or no field is truthy.
   */
  lemma CountryCodePriority(properties: Option<Properties>, i: nat)
    requires i < |IdentifierKeys|
    ensures properties.None? ==> CountryCode(properties).None?
    ensures properties.Some? ==>
              (CountryCode(properties).None? <==> forall j :: 0 <= j < |IdentifierKeys| ==> !Truthy(properties.value, IdentifierKeys[j]))
    ensures properties.Some? && Truthy(properties.value, IdentifierKeys[i])
            && (forall j :: 0 <= j < i ==> !Truthy(properties.value, IdentifierKeys[j]))
            ==> CountryCode(properties) == Some(Lower(properties.value[IdentifierKeys[i]].value))
  {
    if properties.Some? {
      CountryCodeIsFallback(properties.value);
      FirstTruthyPriority(properties.value, IdentifierKeys);
    }
  }

  /**
   * The count-default expression `countryCode ? (countries[countryCode] || 0) : 0`,
   * with JavaScript truthiness on both the code and the stored count.
   */
  function CountFor(code: Option<string>, countries: map<string, int>): int
  {
    if code.Some? && code.value != "" then
      if code.value in countries && countries[code.value] != 0 then countries[code.value] else 0
    else 0
  }

  /** The node count of a feature, as `styleCountry` and `onEachFeature` compute it. */
  function FeatureCount(properties: Option<Properties>, countries: map<string, int>): (n: int)
    ensures n != 0 ==> CountryCode(properties).Some? && CountryCode(properties).value in countries
  {
    CountFor(CountryCode(properties), countries)
  }

  /**
   * Defaulting: the count is the stored value when the code resolves and is in
   * the table, and 0 when the code is missing or absent from the table.
   */
  lemma CountDefault(properties: Option<Properties>, countries: map<string, int>)
    ensures var code := CountryCode(properties);
            FeatureCount(properties, countries) == if code.Some? && code.value in countries then countries[code.value] else 0
  {
  }

  /** `styleCountry`'s `fillColor`. */
  function FillColor(properties: Option<Properties>, countries: map<string, int>): (c: string)
    ensures c in CountryPalette
    ensures c != "#FFEDA0" ==> CountryCode(properties).Some? && CountryCode(properties).value in countries
  {
    CountryColor(FeatureCount(properties, countries))
  }

  /** The popup of a country layer: the feature's own name and its node count. */
  datatype Popup = Popup(name: string, count: int)

  /** `onEachFeature`: the popup bound to a country layer, if any. */
  function CountryPopup(properties: Option<Properties>, countries: map<string, int>): (r: Option<Popup>)
    ensures r.Some? ==> r.value.count > MinCount
  {
    if properties.None? then None
    else
      var count := FeatureCount(properties, countries);
      if count > MinCount && Truthy(properties.value, "name") then
        Some(Popup(properties.value["name"].value, count))
      else None
  }

  /**
   * The popup gate in terms of the inputs: a popup is bound exactly when the
   * feature has a truthy name and the table stores more than `minCount` nodes
   * for its resolved code; it then shows the unconverted name and that count.
   */
  lemma PopupGate(properties: Option<Properties>, countries: map<string, int>)
    ensures var code := CountryCode(properties);
            CountryPopup(properties, countries).Some? <==>
              properties.Some? && Truthy(properties.value, "name")
              && code.Some? && code.value in countries && countries[code.value] > MinCount
    ensures var code := CountryCode(properties);
            CountryPopup(properties, countries).Some? ==>
              CountryPopup(properties, countries).value == Popup(properties.value["name"].value, countries[code.value])
  {
    CountDefault(properties, countries);
    if properties.Some? && Truthy(properties.value, "name") {
      CountryCodePriority(properties, 3);
    }
  }

  /** A country with a popup is never drawn in the lowest colour. */
  lemma PopupCountryIsShaded(properties: Option<Properties>, countries: map<string, int>)
    requires CountryPopup(properties, countries).Some?
    ensures FillColor(properties, countries) != "#FFEDA0"
  {
  }

  /** Sample features: priority of `iso_a2` over `name`, and the empty properties object. */
  lemma Samples(countries: map<string, int>)
    ensures CountryCode(Some(map["iso_a2" := Some("US"), "name" := Some("United States")])) == Some("us")
    ensures CountryCode(Some(map[])) == None && FeatureCount(Some(map[]), countries) == 0
    ensures CountryPopup(Some(map["name" := Some("Kenya")]), map["kenya" := 10]) == None
    ensures CountryPopup(Some(map["name" := Some("Kenya")]), map["kenya" := 11]) == Some(Popup("Kenya", 11))
  {
    assert Lower("US") == "us";
    assert Lower("Kenya") == "kenya";
  }
}
