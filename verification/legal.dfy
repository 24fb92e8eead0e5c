/** The region-dependent legal constants the policy pages render: the
    governing law and the minimum age, each looked up in a per-region table
    with a fallback, and the stub region detector. */
module Legal {
  import opened Wrappers

  /** `RegionCode`. */
  datatype Region = IN | US | EU | UK | CA | AU | SG | AE | OTHER

  const AllRegions: set<Region> := {IN, US, EU, UK, CA, AU, SG, AE, OTHER}

  const DefaultGoverningLaw := "Andhra Pradesh, India"

  /** `LEGAL.governingLawByRegion` */
  function GoverningLawByRegion(r: Region): string {
    match r
    case IN => "Andhra Pradesh, India"
    case US => "Massachusetts, USA"
    case EU => "Ireland (EU)"
    case UK => "England & Wales (UK)"
    case CA => "Ontario, Canada"
    case AU => "New South Wales, Australia"
    case SG => "Singapore"
    case AE => "Dubai, UAE"
    case OTHER => "Andhra Pradesh, India"
  }

  /** `LEGAL.ageMinimum` */
  function AgeMinimum(r: Region): int {
    match r
    case IN => 15
    case US => 15
    case EU => 15
    case UK => 15
    case CA => 15
    case AU => 15
    case SG => 15
    case AE => 15
    case OTHER => 15
  }

  /** `(region && table[region]) || fallback` over a string table: an empty
      entry is falsy and falls back just like a missing region. */
  function LookupText(table: Region -> string, fallback: string, region: Option<Region>): (r: string)
    ensures region.Some? && table(region.value) != "" ==> r == table(region.value)
    ensures region.None? || table(region.value) == "" ==> r == fallback
  {
    match region
    case Some(x) => if table(x) != "" then table(x) else fallback
    case None => fallback
  }

  /** `(region && table[region]) || fallback` over a number table: a zero
      entry is falsy and falls back just like a missing region. */
  function LookupNumber(table: Region -> int, fallback: int, region: Option<Region>): (r: int)
    ensures region.Some? && table(region.value) != 0 ==> r == table(region.value)
    ensures region.None? || table(region.value) == 0 ==> r == fallback
  {
    match region
    case Some(x) => if table(x) != 0 then table(x) else fallback
    case None => fallback
  }

  /** `(region && table[region]) ?? fallback`, the nullish alternative:
      every present region gets its entry, falsy or not. */
  function LookupNullish<T>(table: Region -> T, fallback: T, region: Option<Region>): T {
    match region
    case Some(x) => table(x)
    case None => fallback
  }

  /** The `||` lookup of a string table agrees with the `??` lookup exactly
      when the region is missing, its entry is non-empty, or the fallback
      itself is empty: only an empty entry is replaced. */
  lemma TextFalsyVersusNullish(table: Region -> string, fallback: string, region: Option<Region>)
    ensures LookupText(table, fallback, region) == LookupNullish(table, fallback, region)
            <==> region.None? || table(region.value) != "" || fallback == ""
  {
  }

  /** The `||` lookup of a number table agrees with the `??` lookup exactly
      when the region is missing, its entry is non-zero, or the fallback
      itself is zero: only a zero entry is replaced. */
  lemma NumberFalsyVersusNullish(table: Region -> int, fallback: int, region: Option<Region>)
    ensures LookupNumber(table, fallback, region) == LookupNullish(table, fallback, region)
            <==> region.None? || table(region.value) != 0 || fallback == 0
  {
  }

  /** With the current tables the choice between `||` and `??` makes no
      difference: both lookups give the same answer for every input. */
  lemma TablesMakeFalsyHarmless(region: Option<Region>)
    ensures GoverningLawFor(region) == LookupNullish(GoverningLawByRegion, DefaultGoverningLaw, region)
    ensures AgeMinimumFor(region) == LookupNullish(AgeMinimum, AgeMinimum(OTHER), region)
  {
  }

  /** `governingLawFor`: since no entry of the table is empty, the lookup is
      exact for every region, and a missing region gets the default, which
      is the OTHER entry. */
  function GoverningLawFor(region: Option<Region>): (law: string)
    ensures law != ""
    ensures region.Some? ==> law == GoverningLawByRegion(region.value)
    ensures region.None? ==> law == DefaultGoverningLaw == GoverningLawByRegion(OTHER)
  {
    LookupText(GoverningLawByRegion, DefaultGoverningLaw, region)
  }

  /** `ageMinimumFor`: exact for every region since no entry is zero, the
      OTHER entry for a missing region, and 15 in every case. */
  function AgeMinimumFor(region: Option<Region>): (age: int)
    ensures age > 0
    ensures region.Some? ==> age == AgeMinimum(region.value)
    ensures region.None? ==> age == AgeMinimum(OTHER)
    ensures age == 15
  {
    LookupNumber(AgeMinimum, AgeMinimum(OTHER), region)
  }

  /** RegionCode has exactly nine members and both tables cover each of them
      with a usable (truthy) entry. */
  lemma TablesTotal()
    ensures |AllRegions| == 9
    ensures forall r: Region :: r in AllRegions
    ensures forall r: Region :: GoverningLawByRegion(r) != "" && AgeMinimum(r) > 0
  {
    forall r: Region ensures r in AllRegions {
      match r
      case IN => case US => case EU => case UK => case CA =>
      case AU => case SG => case AE => case OTHER =>
    }
    var s8 := {IN, US, EU, UK, CA, AU, SG, AE};
    assert |s8| == 8;
    assert AllRegions == s8 + {OTHER};
  }

  /** `detectRegion`: real detection is not wired, every caller gets OTHER. */
  function DetectRegion(): Region {
    OTHER
  }

  /** What the terms and privacy pages render: the default governing law
      and a minimum age of 15. */
  lemma RenderedLegalTerms()
    ensures GoverningLawFor(Some(DetectRegion())) == "Andhra Pradesh, India"
    ensures AgeMinimumFor(Some(DetectRegion())) == 15
  {
  }
}
