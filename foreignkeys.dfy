/**
 * The relationship catalog of foreignkeys.go: the fixed parent/child foreign keys between
 * the NASR tables, and the shape facts about it that the DDL synthesiser and the repair
 * engine rely on.
 */
module ForeignKeys {
  import Sets

  /** A child table's key columns reference the same-named columns of its parent. */
  datatype ForeignKey = ForeignKey(childTable: string, columns: seq<string>, parentTable: string)

  /** The relationship declared at position `i` of the catalog. */
  function Relationship(i: nat): ForeignKey
    requires i < 38
  {
    match i
    case 0 => ForeignKey("APT_RWY", ["SITE_NO"], "APT_BASE")
    case 1 => ForeignKey("APT_RWY_END", ["SITE_NO", "RWY_ID"], "APT_RWY")
    case 2 => ForeignKey("APT_ARS", ["SITE_NO", "RWY_ID", "RWY_END_ID"], "APT_RWY_END")
    case 3 => ForeignKey("APT_ATT", ["SITE_NO"], "APT_BASE")
    case 4 => ForeignKey("APT_CON", ["SITE_NO"], "APT_BASE")
    case 5 => ForeignKey("APT_RMK", ["SITE_NO"], "APT_BASE")
    case 6 => ForeignKey("NAV_CKPT", ["NAV_ID", "NAV_TYPE"], "NAV_BASE")
    case 7 => ForeignKey("NAV_RMK", ["NAV_ID", "NAV_TYPE"], "NAV_BASE")
    case 8 => ForeignKey("FIX_CHRT", ["FIX_ID", "ICAO_REGION_CODE"], "FIX_BASE")
    case 9 => ForeignKey("FIX_NAV", ["FIX_ID", "ICAO_REGION_CODE"], "FIX_BASE")
    case 10 => ForeignKey("AWY_SEG_ALT", ["AWY_ID"], "AWY_BASE")
    case 11 => ForeignKey("ILS_GS", ["SITE_NO", "RWY_END_ID", "ILS_LOC_ID"], "ILS_BASE")
    case 12 => ForeignKey("ILS_DME", ["SITE_NO", "RWY_END_ID", "ILS_LOC_ID"], "ILS_BASE")
    case 13 => ForeignKey("ILS_MKR", ["SITE_NO", "RWY_END_ID", "ILS_LOC_ID"], "ILS_BASE")
    case 14 => ForeignKey("ILS_RMK", ["SITE_NO", "RWY_END_ID", "ILS_LOC_ID"], "ILS_BASE")
    case 15 => ForeignKey("ATC_SVC", ["FACILITY_ID", "FACILITY_TYPE"], "ATC_BASE")
    case 16 => ForeignKey("ATC_ATIS", ["FACILITY_ID", "FACILITY_TYPE"], "ATC_BASE")
    case 17 => ForeignKey("ATC_RMK", ["FACILITY_ID", "FACILITY_TYPE"], "ATC_BASE")
    case 18 => ForeignKey("STAR_APT", ["STAR_COMPUTER_CODE"], "STAR_BASE")
    case 19 => ForeignKey("STAR_RTE", ["STAR_COMPUTER_CODE"], "STAR_BASE")
    case 20 => ForeignKey("DP_APT", ["DP_COMPUTER_CODE"], "DP_BASE")
    case 21 => ForeignKey("DP_RTE", ["DP_COMPUTER_CODE"], "DP_BASE")
    case 22 => ForeignKey("HPF_SPD_ALT", ["HP_NAME", "HP_NO"], "HPF_BASE")
    case 23 => ForeignKey("HPF_CHRT", ["HP_NAME", "HP_NO"], "HPF_BASE")
    case 24 => ForeignKey("HPF_RMK", ["HP_NAME", "HP_NO"], "HPF_BASE")
    case 25 => ForeignKey("PFR_SEG", ["ORIGIN_ID", "DSTN_ID", "PFR_TYPE_CODE", "ROUTE_NO"], "PFR_BASE")
    case 26 => ForeignKey("MTR_PT", ["ROUTE_TYPE_CODE", "ROUTE_ID"], "MTR_BASE")
    case 27 => ForeignKey("MTR_AGY", ["ROUTE_TYPE_CODE", "ROUTE_ID"], "MTR_BASE")
    case 28 => ForeignKey("MTR_SOP", ["ROUTE_TYPE_CODE", "ROUTE_ID"], "MTR_BASE")
    case 29 => ForeignKey("MTR_TERR", ["ROUTE_TYPE_CODE", "ROUTE_ID"], "MTR_BASE")
    case 30 => ForeignKey("MTR_WDTH", ["ROUTE_TYPE_CODE", "ROUTE_ID"], "MTR_BASE")
    case 31 => ForeignKey("ARB_SEG", ["LOCATION_ID"], "ARB_BASE")
    case 32 => ForeignKey("WXL_SVC", ["WEA_ID"], "WXL_BASE")
    case 33 => ForeignKey("MAA_SHP", ["MAA_ID"], "MAA_BASE")
    case 34 => ForeignKey("MAA_RMK", ["MAA_ID"], "MAA_BASE")
    case 35 => ForeignKey("MAA_CON", ["MAA_ID"], "MAA_BASE")
    case 36 => ForeignKey("PJA_CON", ["PJA_ID"], "PJA_BASE")
    case _ => ForeignKey("FSS_RMK", ["FSS_ID"], "FSS_BASE")
  }

  /** The 38 relationships, in declaration order. */
  function Catalog(): (c: seq<ForeignKey>)
    ensures |c| == 38
  {
    seq(38, i requires 0 <= i < 38 => Relationship(i))
  }

  /** The tables that name a parent in `fks`. */
  function Parents(fks: seq<ForeignKey>): set<string> {
    set i | 0 <= i < |fks| :: fks[i].parentTable
  }

  /** The tables that name a child in `fks`. */
  function Children(fks: seq<ForeignKey>): set<string> {
    set i | 0 <= i < |fks| :: fks[i].childTable
  }

  // The catalog facts are proved by computation. Comparing string literals is costly for the
  // verifier, so each name is first summarised by an integer fingerprint, a few entries at a
  // time, and the rest of the reasoning is about integers. Equal names have equal fingerprints;
  // where a fact needs the converse, a function from fingerprints back to names supplies it.

  /** Any function of a string would do; this one separates every name in the catalog. */
  function Fingerprint(s: string): int {
    if |s| < 2 then |s| else ((|s| * 128 + s[0] as int) * 128 + s[1] as int) * 128 + s[|s| - 1] as int
  }

  /** The fingerprint of `Relationship(i).childTable`. */
  function ChildFingerprint(i: nat): int
    requires i < 38
  {
    match i
    case 0 => 15755353  // APT_RWY
    case 1 => 24143940  // APT_RWY_END
    case 2 => 15755347  // APT_ARS
    case 3 => 15755348  // APT_ATT
    case 4 => 15755342  // APT_CON
    case 5 => 15755339  // APT_RMK
    case 6 => 18063572  // NAV_CKPT
    case 7 => 15966411  // NAV_RMK
    case 8 => 17933524  // FIX_CHRT
    case 9 => 15836374  // FIX_NAV
    case 10 => 24144852  // AWY_SEG_ALT
    case 11 => 13788755  // ILS_GS
    case 12 => 15885893  // ILS_DME
    case 13 => 15885906  // ILS_MKR
    case 14 => 15885899  // ILS_RMK
    case 15 => 15755843  // ATC_SVC
    case 16 => 17853011  // ATC_ATIS
    case 17 => 15755851  // ATC_RMK
    case 18 => 18147924  // STAR_APT
    case 19 => 18147909  // STAR_RTE
    case 20 => 13707348  // DP_APT
    case 21 => 13707333  // DP_RTE
    case 22 => 24258644  // HPF_SPD_ALT
    case 23 => 17967188  // HPF_CHRT
    case 24 => 15870027  // HPF_RMK
    case 25 => 15999815  // PFR_SEG
    case 26 => 13855316  // MTR_PT
    case 27 => 15952473  // MTR_AGY
    case 28 => 15952464  // MTR_SOP
    case 29 => 18049618  // MTR_TERR
    case 30 => 18049608  // MTR_WDTH
    case 31 => 15755591  // ARB_SEG
    case 32 => 16116803  // WXL_SVC
    case 33 => 15950032  // MAA_SHP
    case 34 => 15950027  // MAA_RMK
    case 35 => 15950030  // MAA_CON
    case 36 => 16000334  // PJA_CON
    case _ => 15837643  // FSS_RMK
  }

  /** The fingerprint of `Relationship(i).parentTable`. */
  function ParentFingerprint(i: nat): int
    requires i < 38
  {
    match i
    case 0 => 17852485  // APT_BASE
    case 1 => 15755353  // APT_RWY
    case 2 => 24143940  // APT_RWY_END
    case 3 => 17852485  // APT_BASE
    case 4 => 17852485  // APT_BASE
    case 5 => 17852485  // APT_BASE
    case 6 => 18063557  // NAV_BASE
    case 7 => 18063557  // NAV_BASE
    case 8 => 17933509  // FIX_BASE
    case 9 => 17933509  // FIX_BASE
    case 10 => 17853381  // AWY_BASE
    case 11 => 17983045  // ILS_BASE
    case 12 => 17983045  // ILS_BASE
    case 13 => 17983045  // ILS_BASE
    case 14 => 17983045  // ILS_BASE
    case 15 => 17852997  // ATC_BASE
    case 16 => 17852997  // ATC_BASE
    case 17 => 17852997  // ATC_BASE
    case 18 => 20245061  // STAR_BASE
    case 19 => 20245061  // STAR_BASE
    case 20 => 15804485  // DP_BASE
    case 21 => 15804485  // DP_BASE
    case 22 => 17967173  // HPF_BASE
    case 23 => 17967173  // HPF_BASE
    case 24 => 17967173  // HPF_BASE
    case 25 => 18096965  // PFR_BASE
    case 26 => 18049605  // MTR_BASE
    case 27 => 18049605  // MTR_BASE
    case 28 => 18049605  // MTR_BASE
    case 29 => 18049605  // MTR_BASE
    case 30 => 18049605  // MTR_BASE
    case 31 => 17852741  // ARB_BASE
    case 32 => 18213957  // WXL_BASE
    case 33 => 18047173  // MAA_BASE
    case 34 => 18047173  // MAA_BASE
    case 35 => 18047173  // MAA_BASE
    case 36 => 18097477  // PJA_BASE
    case _ => 17934789  // FSS_BASE
  }

  /** The position of the child table whose fingerprint is `n`, or -1. */
  function ChildPosition(n: int): int {
    if n == 15755353 then 0
    else if n == 24143940 then 1
    else if n == 15755347 then 2
    else if n == 15755348 then 3
    else if n == 15755342 then 4
    else if n == 15755339 then 5
    else if n == 18063572 then 6
    else if n == 15966411 then 7
    else if n == 17933524 then 8
    else if n == 15836374 then 9
    else if n == 24144852 then 10
    else if n == 13788755 then 11
    else if n == 15885893 then 12
    else if n == 15885906 then 13
    else if n == 15885899 then 14
    else if n == 15755843 then 15
    else if n == 17853011 then 16
    else if n == 15755851 then 17
    else if n == 18147924 then 18
    else if n == 18147909 then 19
    else if n == 13707348 then 20
    else if n == 13707333 then 21
    else if n == 24258644 then 22
    else if n == 17967188 then 23
    else if n == 15870027 then 24
    else if n == 15999815 then 25
    else if n == 13855316 then 26
    else if n == 15952473 then 27
    else if n == 15952464 then 28
    else if n == 18049618 then 29
    else if n == 18049608 then 30
    else if n == 15755591 then 31
    else if n == 16116803 then 32
    else if n == 15950032 then 33
    else if n == 15950027 then 34
    else if n == 15950030 then 35
    else if n == 16000334 then 36
    else if n == 15837643 then 37
    else -1
  }

  /** The parent table whose fingerprint is `n`. */
  function ParentNamed(n: int): string {
    if n == 17852485 then "APT_BASE"
    else if n == 15755353 then "APT_RWY"
    else if n == 24143940 then "APT_RWY_END"
    else if n == 18063557 then "NAV_BASE"
    else if n == 17933509 then "FIX_BASE"
    else if n == 17853381 then "AWY_BASE"
    else if n == 17983045 then "ILS_BASE"
    else if n == 17852997 then "ATC_BASE"
    else if n == 20245061 then "STAR_BASE"
    else if n == 15804485 then "DP_BASE"
    else if n == 17967173 then "HPF_BASE"
    else if n == 18096965 then "PFR_BASE"
    else if n == 18049605 then "MTR_BASE"
    else if n == 17852741 then "ARB_BASE"
    else if n == 18213957 then "WXL_BASE"
    else if n == 18047173 then "MAA_BASE"
    else if n == 18097477 then "PJA_BASE"
    else if n == 17934789 then "FSS_BASE"
    else ""
  }

  /** The key columns of the parent table whose fingerprint is `n`. */
  function ParentKey(n: int): seq<string> {
    if n == 17852485 then ["SITE_NO"]  // APT_BASE
    else if n == 15755353 then ["SITE_NO", "RWY_ID"]  // APT_RWY
    else if n == 24143940 then ["SITE_NO", "RWY_ID", "RWY_END_ID"]  // APT_RWY_END
    else if n == 18063557 then ["NAV_ID", "NAV_TYPE"]  // NAV_BASE
    else if n == 17933509 then ["FIX_ID", "ICAO_REGION_CODE"]  // FIX_BASE
    else if n == 17853381 then ["AWY_ID"]  // AWY_BASE
    else if n == 17983045 then ["SITE_NO", "RWY_END_ID", "ILS_LOC_ID"]  // ILS_BASE
    else if n == 17852997 then ["FACILITY_ID", "FACILITY_TYPE"]  // ATC_BASE
    else if n == 20245061 then ["STAR_COMPUTER_CODE"]  // STAR_BASE
    else if n == 15804485 then ["DP_COMPUTER_CODE"]  // DP_BASE
    else if n == 17967173 then ["HP_NAME", "HP_NO"]  // HPF_BASE
    else if n == 18096965 then ["ORIGIN_ID", "DSTN_ID", "PFR_TYPE_CODE", "ROUTE_NO"]  // PFR_BASE
    else if n == 18049605 then ["ROUTE_TYPE_CODE", "ROUTE_ID"]  // MTR_BASE
    else if n == 17852741 then ["LOCATION_ID"]  // ARB_BASE
    else if n == 18213957 then ["WEA_ID"]  // WXL_BASE
    else if n == 18047173 then ["MAA_ID"]  // MAA_BASE
    else if n == 18097477 then ["PJA_ID"]  // PJA_BASE
    else if n == 17934789 then ["FSS_ID"]  // FSS_BASE
    else []
  }

  /** The first position naming the parent table whose fingerprint is `n`, or -1. */
  function FirstParentPosition(n: int): int {
    if n == 17852485 then 0  // APT_BASE
    else if n == 15755353 then 1  // APT_RWY
    else if n == 24143940 then 2  // APT_RWY_END
    else if n == 18063557 then 6  // NAV_BASE
    else if n == 17933509 then 8  // FIX_BASE
    else if n == 17853381 then 10  // AWY_BASE
    else if n == 17983045 then 11  // ILS_BASE
    else if n == 17852997 then 15  // ATC_BASE
    else if n == 20245061 then 18  // STAR_BASE
    else if n == 15804485 then 20  // DP_BASE
    else if n == 17967173 then 22  // HPF_BASE
    else if n == 18096965 then 25  // PFR_BASE
    else if n == 18049605 then 26  // MTR_BASE
    else if n == 17852741 then 31  // ARB_BASE
    else if n == 18213957 then 32  // WXL_BASE
    else if n == 18047173 then 33  // MAA_BASE
    else if n == 18097477 then 36  // PJA_BASE
    else if n == 17934789 then 37  // FSS_BASE
    else -1
  }

  /** The fingerprints of the 18 parent tables, in increasing order. */
  const ParentFingerprints: seq<int> := [
    15755353, 15804485, 17852485, 17852741, 17852997, 17853381,
    17933509, 17934789, 17967173, 17983045, 18047173, 18049605,
    18063557, 18096965, 18097477, 18213957, 20245061, 24143940
  ]

  /** The position of `n` in `ParentFingerprints`, or 0. */
  function ParentRank(n: int): nat {
    if n == 15755353 then 0
    else if n == 15804485 then 1
    else if n == 17852485 then 2
    else if n == 17852741 then 3
    else if n == 17852997 then 4
    else if n == 17853381 then 5
    else if n == 17933509 then 6
    else if n == 17934789 then 7
    else if n == 17967173 then 8
    else if n == 17983045 then 9
    else if n == 18047173 then 10
    else if n == 18049605 then 11
    else if n == 18063557 then 12
    else if n == 18096965 then 13
    else if n == 18097477 then 14
    else if n == 18213957 then 15
    else if n == 20245061 then 16
    else 17
  }

  lemma ChildFingerprints0() ensures forall i | 0 <= i < 6 :: Fingerprint(Relationship(i).childTable) == ChildFingerprint(i) {}
  lemma ChildFingerprints1() ensures forall i | 6 <= i < 11 :: Fingerprint(Relationship(i).childTable) == ChildFingerprint(i) {}
  lemma ChildFingerprints2() ensures forall i | 11 <= i < 18 :: Fingerprint(Relationship(i).childTable) == ChildFingerprint(i) {}
  lemma ChildFingerprints3() ensures forall i | 18 <= i < 25 :: Fingerprint(Relationship(i).childTable) == ChildFingerprint(i) {}
  lemma ChildFingerprints4() ensures forall i | 25 <= i < 31 :: Fingerprint(Relationship(i).childTable) == ChildFingerprint(i) {}
  lemma ChildFingerprints5() ensures forall i | 31 <= i < 38 :: Fingerprint(Relationship(i).childTable) == ChildFingerprint(i) {}
  lemma ParentFingerprints0() ensures forall i | 0 <= i < 6 :: Fingerprint(Relationship(i).parentTable) == ParentFingerprint(i) {}
  lemma ParentFingerprints1() ensures forall i | 6 <= i < 11 :: Fingerprint(Relationship(i).parentTable) == ParentFingerprint(i) {}
  lemma ParentFingerprints2() ensures forall i | 11 <= i < 18 :: Fingerprint(Relationship(i).parentTable) == ParentFingerprint(i) {}
  lemma ParentFingerprints3() ensures forall i | 18 <= i < 25 :: Fingerprint(Relationship(i).parentTable) == ParentFingerprint(i) {}
  lemma ParentFingerprints4() ensures forall i | 25 <= i < 31 :: Fingerprint(Relationship(i).parentTable) == ParentFingerprint(i) {}
  lemma ParentFingerprints5() ensures forall i | 31 <= i < 38 :: Fingerprint(Relationship(i).parentTable) == ParentFingerprint(i) {}
  lemma ParentNames0() ensures forall i | 0 <= i < 6 :: ParentNamed(ParentFingerprint(i)) == Relationship(i).parentTable {}
  lemma ParentNames1() ensures forall i | 6 <= i < 11 :: ParentNamed(ParentFingerprint(i)) == Relationship(i).parentTable {}
  lemma ParentNames2() ensures forall i | 11 <= i < 18 :: ParentNamed(ParentFingerprint(i)) == Relationship(i).parentTable {}
  lemma ParentNames3() ensures forall i | 18 <= i < 25 :: ParentNamed(ParentFingerprint(i)) == Relationship(i).parentTable {}
  lemma ParentNames4() ensures forall i | 25 <= i < 31 :: ParentNamed(ParentFingerprint(i)) == Relationship(i).parentTable {}
  lemma ParentNames5() ensures forall i | 31 <= i < 38 :: ParentNamed(ParentFingerprint(i)) == Relationship(i).parentTable {}
  lemma ParentKeys0() ensures forall i | 0 <= i < 6 :: ParentKey(ParentFingerprint(i)) == Relationship(i).columns {}
  lemma ParentKeys1() ensures forall i | 6 <= i < 11 :: ParentKey(ParentFingerprint(i)) == Relationship(i).columns {}
  lemma ParentKeys2() ensures forall i | 11 <= i < 18 :: ParentKey(ParentFingerprint(i)) == Relationship(i).columns {}
  lemma ParentKeys3() ensures forall i | 18 <= i < 25 :: ParentKey(ParentFingerprint(i)) == Relationship(i).columns {}
  lemma ParentKeys4() ensures forall i | 25 <= i < 31 :: ParentKey(ParentFingerprint(i)) == Relationship(i).columns {}
  lemma ParentKeys5() ensures forall i | 31 <= i < 38 :: ParentKey(ParentFingerprint(i)) == Relationship(i).columns {}

  /** The catalog agrees with the precomputed fingerprints, names and keys. */
  lemma CatalogFingerprints()
    ensures forall i | 0 <= i < 38 :: Fingerprint(Catalog()[i].childTable) == ChildFingerprint(i)
    ensures forall i | 0 <= i < 38 :: Fingerprint(Catalog()[i].parentTable) == ParentFingerprint(i)
    ensures forall i | 0 <= i < 38 :: ParentNamed(ParentFingerprint(i)) == Catalog()[i].parentTable
    ensures forall i | 0 <= i < 38 :: ParentKey(ParentFingerprint(i)) == Catalog()[i].columns
  {
    ChildFingerprints0(); ChildFingerprints1(); ChildFingerprints2(); ChildFingerprints3(); ChildFingerprints4(); ChildFingerprints5();
    ParentFingerprints0(); ParentFingerprints1(); ParentFingerprints2(); ParentFingerprints3(); ParentFingerprints4(); ParentFingerprints5();
    ParentNames0(); ParentNames1(); ParentNames2(); ParentNames3(); ParentNames4(); ParentNames5();
    ParentKeys0(); ParentKeys1(); ParentKeys2(); ParentKeys3(); ParentKeys4(); ParentKeys5();
  }

  // Facts about the fingerprints alone.

  lemma ChildFingerprintsSeparate()
    ensures forall i | 0 <= i < 38 :: ChildPosition(ChildFingerprint(i)) == i
  {
  }

  lemma ParentsAmongChildren()
    ensures forall j | 0 <= j < 38 :: ChildPosition(ParentFingerprint(j)) == (if j == 1 then 0 else if j == 2 then 1 else -1)
  {
  }

  lemma ParentFingerprintsListed()
    ensures forall j | 0 <= j < 38 :: ParentFingerprint(j) in Sets.Elements(ParentFingerprints)
  {
    forall j | 0 <= j < 38 ensures ParentFingerprint(j) in Sets.Elements(ParentFingerprints) {
      assert ParentFingerprint(j) == ParentFingerprints[ParentRank(ParentFingerprint(j))];
    }
  }

  lemma ParentFingerprintsApart()
    ensures forall j | 0 <= j < 38 :: ParentFingerprint(j) != ChildFingerprint(j) && |ParentKey(ParentFingerprint(j))| > 0
  {
  }

  lemma ParentFingerprintsUsed()
    ensures forall k | 0 <= k < |ParentFingerprints| ::
      0 <= FirstParentPosition(ParentFingerprints[k]) < 38 &&
      ParentFingerprint(FirstParentPosition(ParentFingerprints[k])) == ParentFingerprints[k]
  {
  }

  lemma ParentFingerprintsIncrease()
    ensures forall k | 0 < k < |ParentFingerprints| :: ParentFingerprints[k - 1] < ParentFingerprints[k]
  {
  }

  // The shape of the catalog.

  /** Every child table appears exactly once. */
  lemma CatalogChildrenDistinct()
    ensures forall i, j | 0 <= i < j < |Catalog()| :: Catalog()[i].childTable != Catalog()[j].childTable
  {
    CatalogFingerprints();
    ChildFingerprintsSeparate();
  }

  /** No table is its own parent, and every key has at least one column. */
  lemma CatalogEntriesWellFormed()
    ensures forall i | 0 <= i < |Catalog()| ::
      Catalog()[i].childTable != Catalog()[i].parentTable && |Catalog()[i].columns| > 0
  {
    CatalogFingerprints();
    ParentFingerprintsApart();
  }

  /** Every parent is referenced through one column list only. */
  lemma CatalogOneKeyPerParent()
    ensures forall i, j | 0 <= i < |Catalog()| && 0 <= j < |Catalog()| ::
      Catalog()[i].parentTable == Catalog()[j].parentTable ==> Catalog()[i].columns == Catalog()[j].columns
  {
    CatalogFingerprints();
  }

  /** The parents' fingerprints are exactly `ParentFingerprints`. */
  lemma ParentFingerprintImage()
    ensures (set p | p in Parents(Catalog()) :: Fingerprint(p)) == Sets.Elements(ParentFingerprints)
  {
    var ps := Parents(Catalog());
    ParentFingerprints0(); ParentFingerprints1(); ParentFingerprints2();
    ParentFingerprints3(); ParentFingerprints4(); ParentFingerprints5();
    ParentFingerprintsListed();
    ParentFingerprintsUsed();
    forall n | n in Sets.Elements(ParentFingerprints) ensures exists p | p in ps :: Fingerprint(p) == n {
      var k :| 0 <= k < |ParentFingerprints| && ParentFingerprints[k] == n;
      var i := FirstParentPosition(n);
      assert Catalog()[i].parentTable in ps;
    }
  }

  /** Fingerprints separate the parent tables. */
  lemma ParentNamesRecovered()
    ensures forall p | p in Parents(Catalog()) :: ParentNamed(Fingerprint(p)) == p
  {
    ParentFingerprints0(); ParentFingerprints1(); ParentFingerprints2();
    ParentFingerprints3(); ParentFingerprints4(); ParentFingerprints5();
    ParentNames0(); ParentNames1(); ParentNames2(); ParentNames3(); ParentNames4(); ParentNames5();
  }

  /** There are exactly 18 parent tables. */
  lemma CatalogParentCount()
    ensures |Parents(Catalog())| == 18
  {
    ParentFingerprintImage();
    ParentNamesRecovered();
    ParentFingerprintsIncrease();
    SizeByFingerprints(Parents(Catalog()), ParentFingerprints, ParentNamed);
  }

  /** A set of names whose fingerprints are the increasing `fps`, and which `name` recovers, has `|fps|` elements. */
  lemma SizeByFingerprints(names: set<string>, fps: seq<int>, name: int -> string)
    requires (set p | p in names :: Fingerprint(p)) == Sets.Elements(fps)
    requires forall p | p in names :: name(Fingerprint(p)) == p
    requires forall k | 0 < k < |fps| :: fps[k - 1] < fps[k]
    ensures |names| == |fps|
  {
    Sets.IncreasingElements(fps);
    var f := (p: string) => Fingerprint(p);
    Sets.InjectiveImageSize(names, f, name);
    assert Sets.Image(names, f) == set p | p in names :: Fingerprint(p);
  }

  /** APT_RWY and APT_RWY_END are the only tables that are both a child and a parent. */
  lemma CatalogIntermediateTables()
    ensures Children(Catalog()) * Parents(Catalog()) == {"APT_RWY", "APT_RWY_END"}
  {
    var c := Catalog();
    CatalogFingerprints();
    ChildFingerprintsSeparate();
    ParentsAmongChildren();
    assert c[0].childTable == "APT_RWY" == c[1].parentTable;
    assert c[1].childTable == "APT_RWY_END" == c[2].parentTable;
    forall t | t in Children(c) * Parents(c) ensures t == "APT_RWY" || t == "APT_RWY_END" {
      var i :| 0 <= i < |c| && c[i].childTable == t;
      var j :| 0 <= j < |c| && c[j].parentTable == t;
      assert ChildPosition(ChildFingerprint(i)) == ChildPosition(ParentFingerprint(j));
    }
  }

  /**
   * Along the runway chain each parent's key is a proper prefix of its child's key:
   * APT_BASE (SITE_NO), APT_RWY (SITE_NO, RWY_ID), APT_RWY_END (SITE_NO, RWY_ID, RWY_END_ID).
   */
  lemma RunwayChainKeysNest()
    ensures forall i, j | 0 <= i < |Catalog()| && 0 <= j < |Catalog()| ::
      Catalog()[j].parentTable == Catalog()[i].childTable ==> Catalog()[i].columns < Catalog()[j].columns
  {
    var c := Catalog();
    CatalogFingerprints();
    ChildFingerprintsSeparate();
    ParentsAmongChildren();
    assert c[0].columns < c[1].columns && c[1].columns < c[2].columns;
    forall i, j | 0 <= i < |c| && 0 <= j < |c| && c[j].parentTable == c[i].childTable
      ensures c[i].columns < c[j].columns
    {
      assert ChildPosition(ChildFingerprint(i)) == ChildPosition(ParentFingerprint(j));
    }
  }

  /**
   * The number of parent links above a catalog table on its longest chain: 3 for APT_ARS,
   * 2 for APT_RWY_END, 1 for the other child tables, 0 for tables that are only parents.
   */
  function Depth(t: string): nat {
    var n := Fingerprint(t);
    if n == 15755347 then 3
    else if n == 24143940 then 2
    else if ChildPosition(n) >= 0 then 1
    else 0
  }

  /** Every relationship of `fks` leads to a table of smaller rank. */
  ghost predicate RankDecreases(fks: seq<ForeignKey>, rank: string -> nat) {
    forall i | 0 <= i < |fks| :: rank(fks[i].parentTable) < rank(fks[i].childTable)
  }

  lemma CatalogDepthDecreases()
    ensures RankDecreases(Catalog(), Depth)
  {
    CatalogFingerprints();
    ChildFingerprintsSeparate();
    ParentsAmongChildren();
  }

  /** Some relationship of `fks` leads from child `a` to parent `b`. */
  ghost predicate Link(fks: seq<ForeignKey>, a: string, b: string) {
    exists i | 0 <= i < |fks| :: fks[i].childTable == a && fks[i].parentTable == b
  }

  /** `p` walks from child to parent along relationships of `fks`. */
  ghost predicate IsPath(fks: seq<ForeignKey>, p: seq<string>) {
    forall k | 0 <= k < |p| - 1 :: Link(fks, p[k], p[k + 1])
  }

  /** No walk from child to parent returns to where it started: the catalog is acyclic. */
  lemma CatalogAcyclic(p: seq<string>)
    requires IsPath(Catalog(), p) && |p| >= 2
    ensures p[0] != p[|p| - 1]
  {
    CatalogDepthDecreases();
    RankAlongPath(Catalog(), p, Depth);
  }

  lemma {:induction false} RankAlongPath(fks: seq<ForeignKey>, p: seq<string>, rank: string -> nat)
    requires RankDecreases(fks, rank)
    requires IsPath(fks, p) && |p| >= 2
    ensures rank(p[|p| - 1]) < rank(p[0])
    decreases |p|
  {
    assert Link(fks, p[0], p[1]);
    var i :| 0 <= i < |fks| && fks[i].childTable == p[0] && fks[i].parentTable == p[1];
    if |p| > 2 {
      var q := p[1..];
      assert IsPath(fks, q) by {
        forall k | 0 <= k < |q| - 1 ensures Link(fks, q[k], q[k + 1]) {
          assert q[k] == p[k + 1] && q[k + 1] == p[(k + 1) + 1];
        }
      }
      RankAlongPath(fks, q, rank);
    }
  }
}
