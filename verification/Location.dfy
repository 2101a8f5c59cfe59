/** Country and region codes: the embedded ISO dataset, the domain validation
    and the CHECK constraint of migration 005. */
module Location {
  import opened Wrappers

  /** The lookups the country library offers. `byName` resolves names, alpha-2 and
      alpha-3 codes alike; `subdivisions` gives the country that owns a subdivision. */
  datatype IsoData = IsoData(
    byName: map<string, nat>,
    alpha2: map<nat, string>,
    subdivisions: map<string, nat>)

  predicate IsAlpha2(s: string) {
    |s| == 2 && 'A' <= s[0] <= 'Z' && 'A' <= s[1] <= 'Z'
  }

  /** What the ISO standards promise of the dataset: alpha-2 codes are two capital
      letters and a subdivision code starts with its country's code and a hyphen. */
  ghost predicate FollowsIso3166(d: IsoData) {
    && (forall n <- d.byName :: d.byName[n] in d.alpha2)
    && (forall c <- d.alpha2 :: IsAlpha2(d.alpha2[c]))
    && (forall s <- d.subdivisions ::
          d.subdivisions[s] in d.alpha2 && d.alpha2[d.subdivisions[s]] + "-" <= s)
  }

  type Iso = d: IsoData | FollowsIso3166(d) witness IsoData(map[], map[], map[])

  datatype LocationError =
    | RegionWithoutCountry
    | EmptyCountry
    | MalformedCountry
    | UnknownCountry
    | EmptyRegion
    | UnknownRegion
    | ForeignRegion

  /** Upper-casing changes no character of s (ASCII letters only; any other
      character is refused later because no alpha-2 code contains it). */
  predicate IsUpper(s: string) {
    forall c <- s :: !('a' <= c <= 'z')
  }

  /** Domain validation, guard by guard. */
  function ValidateLocation(iso: Iso, country: Option<string>, region: Option<string>)
    : Result<(), LocationError>
  {
    if country.None? && region.None? then Ok(())
    else if country.None? then Err(RegionWithoutCountry)
    else
      var c := country.value;
      if c == "" then Err(EmptyCountry)
      else if |c| != 2 || !IsUpper(c) then Err(MalformedCountry)
      else if c !in iso.byName then Err(UnknownCountry)
      else if iso.alpha2[iso.byName[c]] != c then Err(UnknownCountry)
      else if region.None? then Ok(())
      else
        var r := region.value;
        if r == "" then Err(EmptyRegion)
        else if r !in iso.subdivisions then Err(UnknownRegion)
        else if iso.subdivisions[r] != iso.byName[c] then Err(ForeignRegion)
        else Ok(())
  }

  /** c is exactly the alpha-2 code of the country it names. */
  predicate IsCountry(iso: Iso, c: string) {
    c in iso.byName && iso.alpha2[iso.byName[c]] == c
  }

  predicate Owns(iso: Iso, c: string, r: string) {
    IsCountry(iso, c) && r in iso.subdivisions && iso.subdivisions[r] == iso.byName[c]
  }

  /** Full location validity: a country is null or a real code; a region is null
      or a subdivision of that country. */
  predicate LocationValid(iso: Iso, country: Option<string>, region: Option<string>) {
    match (country, region)
    case (None, None) => true
    case (None, Some(_)) => false
    case (Some(c), None) => IsCountry(iso, c)
    case (Some(c), Some(r)) => Owns(iso, c, r)
  }

  /** The emptiness, length and case guards never decide on their own: validation
      accepts exactly the valid locations. */
  lemma ValidateLocationExact(iso: Iso, country: Option<string>, region: Option<string>)
    ensures ValidateLocation(iso, country, region).Ok? <==> LocationValid(iso, country, region)
  {
    if country.Some? && IsCountry(iso, country.value) {
      assert IsAlpha2(iso.alpha2[iso.byName[country.value]]);
      if region.Some? && Owns(iso, country.value, region.value) {
        assert iso.alpha2[iso.subdivisions[region.value]] + "-" <= region.value;
      }
    }
  }

  /** Which guard refuses an invalid location. */
  lemma RefusalReasons(iso: Iso, country: Option<string>, region: Option<string>)
    requires !LocationValid(iso, country, region)
    ensures ValidateLocation(iso, country, region) == Err(
              if country.None? then RegionWithoutCountry
              else if country == Some("") then EmptyCountry
              else if |country.value| != 2 || exists i | 0 <= i < 2 :: 'a' <= country.value[i] <= 'z' then MalformedCountry
              else if !IsCountry(iso, country.value) then UnknownCountry
              else if region == Some("") then EmptyRegion
              else if region.value !in iso.subdivisions then UnknownRegion
              else ForeignRegion)
  {
    if country.Some? && |country.value| == 2 {
      var c := country.value;
      assert c == [c[0], c[1]];
      assert IsUpper(c) <==> !('a' <= c[0] <= 'z') && !('a' <= c[1] <= 'z') by {
        assert c[0] in c && c[1] in c;
      }
    }
  }

  /** SQL LIKE with its two wildcards and the backslash escape. */
  predicate Like(s: string, p: string)
    decreases |p|, |s|
  {
    if p == "" then s == ""
    else if p[0] == '%' then Like(s, p[1..]) || (s != "" && Like(s[1..], p))
    else if s == "" then false
    else if p[0] == '_' then Like(s[1..], p[1..])
    else if p[0] == '\\' then |p| > 1 && s[0] == p[1] && Like(s[1..], p[2..])
    else s[0] == p[0] && Like(s[1..], p[1..])
  }

  /** One character for '_', any text for '%', and what follows a backslash as it is. */
  lemma LikeWildcards(c: char, d: char, s: string)
    ensures Like([c], "_") && !Like("", "_") && !Like([c, d], "_")
    ensures Like([c], "\\%") <==> c == '%'
    ensures Like(s, "%")
  {
    assert [c, d][1..] == [d];
    LikeAnything(s);
  }

  /** The CHECK of migration 005: region IS NULL OR
      (country IS NOT NULL AND region LIKE country || '-%'). */
  predicate RegionCountryCheck(country: Option<string>, region: Option<string>) {
    region.None? || (country.Some? && Like(region.value, country.value + "-%"))
  }

  predicate NoWildcard(s: string) {
    forall c <- s :: c != '%' && c != '_' && c != '\\'
  }

  lemma {:induction false} LikeAnything(s: string)
    ensures Like(s, "%")
  {
    if s != "" {
      LikeAnything(s[1..]);
    }
  }

  /** Without wildcards in the prefix, LIKE prefix || '%' is the prefix order. */
  lemma {:induction false} LikePrefix(s: string, prefix: string)
    requires NoWildcard(prefix)
    ensures Like(s, prefix + "%") <==> prefix <= s
    decreases |prefix|
  {
    if prefix == "" {
      assert prefix + "%" == "%";
      LikeAnything(s);
    } else if s == "" {
      assert (prefix + "%")[0] == prefix[0] && prefix[0] in prefix;
    } else {
      var p := prefix + "%";
      assert p[1..] == prefix[1..] + "%";
      assert p[0] == prefix[0] && prefix[0] in prefix;
      forall c | c in prefix[1..] ensures c in prefix {}
      LikePrefix(s[1..], prefix[1..]);
      assert Like(s, p) <==> s[0] == p[0] && Like(s[1..], p[1..]);
      assert s == [s[0]] + s[1..] && prefix == [prefix[0]] + prefix[1..];
      assert prefix <= s <==> s[0] == prefix[0] && prefix[1..] <= s[1..];
    }
  }

  /** For a real country code the CHECK is a prefix test. */
  lemma CheckIsPrefixTest(c: string, r: string)
    requires IsAlpha2(c)
    ensures RegionCountryCheck(Some(c), Some(r)) <==> c + "-" <= r
  {
    assert c + "-%" == (c + "-") + "%";
    assert NoWildcard(c + "-") by {
      assert c == [c[0], c[1]];
    }
    LikePrefix(r, c + "-");
  }

  /** A valid location passes the CHECK. */
  lemma ValidPassesCheck(iso: Iso, country: Option<string>, region: Option<string>)
    requires LocationValid(iso, country, region)
    ensures RegionCountryCheck(country, region)
  {
    if region.Some? {
      assert IsAlpha2(iso.alpha2[iso.byName[country.value]]);
      CheckIsPrefixTest(country.value, region.value);
    }
  }

  /** The gap-closing fact: once a region is owned by some country, the prefix
      CHECK against any real country identifies that owner. */
  lemma CheckIdentifiesOwner(iso: Iso, owner: string, c: string, r: string)
    requires Owns(iso, owner, r) && IsCountry(iso, c)
    ensures RegionCountryCheck(Some(c), Some(r)) <==> c == owner
  {
    assert IsAlpha2(iso.alpha2[iso.byName[c]]);
    assert IsAlpha2(iso.alpha2[iso.byName[owner]]);
    CheckIsPrefixTest(c, r);
    assert owner + "-" <= r;
    if c + "-" <= r {
      assert c[0] == (c + "-")[0] == r[0] == (owner + "-")[0] == owner[0];
      assert c[1] == (c + "-")[1] == r[1] == (owner + "-")[1] == owner[1];
      assert c == [c[0], c[1]] && owner == [owner[0], owner[1]];
    }
  }

  /** No two countries share a code. */
  ghost predicate DistinctCodes(iso: Iso) {
    forall m, n | m in iso.alpha2 && n in iso.alpha2 && iso.alpha2[m] == iso.alpha2[n] :: m == n
  }

  /** The converse fails: the CHECK looks at neither dataset. A location passes it
      without being valid exactly when its country is not a real code, or its region
      carries the prefix of a real country without being a subdivision at all; a
      known subdivision with that prefix is the country's own. */
  lemma CheckExceedsValidity(iso: Iso, country: Option<string>, region: Option<string>)
    requires DistinctCodes(iso)
    ensures RegionCountryCheck(country, region) && !LocationValid(iso, country, region) <==>
              && country.Some?
              && (region.Some? ==> Like(region.value, country.value + "-%"))
              && (!IsCountry(iso, country.value) || (region.Some? && region.value !in iso.subdivisions))
  {
    if country.Some? && region.Some? && IsCountry(iso, country.value) && region.value in iso.subdivisions {
      var owner := iso.alpha2[iso.subdivisions[region.value]];
      assert IsAlpha2(owner) && IsAlpha2(country.value) && owner + "-" <= region.value;
      CheckIsPrefixTest(country.value, region.value);
      if country.value + "-" <= region.value {
        SamePrefix(owner, country.value, region.value);
      }
    }
  }

  lemma SamePrefix(a: string, b: string, r: string)
    requires |a| == |b| == 2 && a + "-" <= r && b + "-" <= r
    ensures a == b
  {
    assert a == (a + "-")[..2] == r[..2] == (b + "-")[..2] == b;
  }

  lemma LongerThanAll(texts: set<string>) returns (n: nat)
    ensures forall s <- texts :: |s| < n
  {
    n := 0;
    if texts != {} {
      var s :| s in texts;
      var m := LongerThanAll(texts - {s});
      n := if |s| < m then m else |s| + 1;
      assert forall t <- texts :: t == s || t in texts - {s};
    }
  }

  /** Whatever the dataset, every real country admits a row that passes the CHECK with
      a region nobody owns. */
  lemma CheckAdmitsInvalid(iso: Iso, c: string)
    requires IsCountry(iso, c)
    ensures exists r :: RegionCountryCheck(Some(c), Some(r)) && !LocationValid(iso, Some(c), Some(r))
  {
    assert IsAlpha2(iso.alpha2[iso.byName[c]]);
    var n := LongerThanAll(iso.subdivisions.Keys);
    var r := c + "-" + seq(n, _ => 'X');
    assert c + "-" <= r;
    CheckIsPrefixTest(c, r);
    assert r !in iso.subdivisions;
  }
}
