/**
 * The choice of the inner archive in zip.go: the outer subscription archive holds the full CSV
 * archive of one cycle as `CSV_Data/<date>_CSV.zip`, next to delta archives whose names join two
 * dates with a hyphen. Opening, decompressing and reading the archives are not modelled: each
 * outer entry comes with the inner archive's files already read, or `None` when that failed.
 */
module Zip {
  import opened Wrappers
  import opened Strings
  import opened Loader

  const InnerPrefix := "CSV_Data/"
  const InnerSuffix := "_CSV.zip"

  /** The part of an entry name between the directory and the `_CSV.zip` suffix. */
  function CycleName(name: string): string {
    TrimSuffix(TrimPrefix(name, InnerPrefix), InnerSuffix)
  }

  /** The test of the selection loop: the right directory and suffix, and no hyphen between. */
  predicate IsInnerCSVZip(name: string) {
    HasPrefix(name, InnerPrefix) && HasSuffix(name, InnerSuffix) && '-' !in CycleName(name)
  }

  /** The name built from a cycle name gives that cycle name back. */
  lemma CycleNameOf(d: string)
    ensures HasPrefix(InnerPrefix + d + InnerSuffix, InnerPrefix)
    ensures HasSuffix(InnerPrefix + d + InnerSuffix, InnerSuffix)
    ensures CycleName(InnerPrefix + d + InnerSuffix) == d
  {
    var name := InnerPrefix + d + InnerSuffix;
    assert name[..9] == InnerPrefix;
    assert name[9..] == d + InnerSuffix;
    assert (d + InnerSuffix)[|d|..] == InnerSuffix;
  }

  /** The directory and the suffix cannot overlap: a name with both is at least their length. */
  lemma NoOverlap(name: string)
    requires HasPrefix(name, InnerPrefix) && HasSuffix(name, InnerSuffix)
    ensures |name| >= |InnerPrefix| + |InnerSuffix|
  {
    var k := |name| - 8;
    assert name[k] == '_' && name[k + 1] == 'C' by {
      assert name[k..] == InnerSuffix;
    }
    assert forall i | 0 <= i < 9 :: name[i] == InnerPrefix[i];
  }

  /** An entry qualifies exactly when its name is the directory, a hyphen-free cycle name and the suffix. */
  lemma IsInnerCSVZipMeaning(name: string)
    ensures IsInnerCSVZip(name) <==> exists d :: name == InnerPrefix + d + InnerSuffix && '-' !in d
    ensures IsInnerCSVZip(name) ==> name == InnerPrefix + CycleName(name) + InnerSuffix
  {
    if HasPrefix(name, InnerPrefix) && HasSuffix(name, InnerSuffix) {
      NoOverlap(name);
      var rest := name[9..];
      assert name == InnerPrefix + rest;
      assert rest[|rest| - 8..] == name[|name| - 8..];
      assert HasSuffix(rest, InnerSuffix);
      assert name == InnerPrefix + CycleName(name) + InnerSuffix;
    }
    forall d | name == InnerPrefix + d + InnerSuffix
      ensures HasPrefix(name, InnerPrefix) && HasSuffix(name, InnerSuffix) && CycleName(name) == d
    {
      CycleNameOf(d);
    }
  }

  /** The full archive of a cycle is taken. */
  lemma FullArchiveSelected()
    ensures IsInnerCSVZip(InnerPrefix + "19_Feb_2026" + InnerSuffix)
  {
    var d := "19_Feb_2026";
    assert '-' !in d;
    CycleNameOf(d);
  }

  /** A delta archive between two cycles is passed over. */
  lemma DeltaArchiveSkipped()
    ensures !IsInnerCSVZip(InnerPrefix + "19_Feb_2026-20_Mar_2026" + InnerSuffix)
  {
    var d := "19_Feb_2026-20_Mar_2026";
    assert d[11] == '-';
    CycleNameOf(d);
  }

  /** The test of one entry, as the loop body makes it: the prefix and suffix, then the hyphen. */
  method Qualifies(name: string) returns (b: bool)
    ensures b == IsInnerCSVZip(name)
  {
    if !HasPrefix(name, InnerPrefix) || !HasSuffix(name, InnerSuffix) {
      return false;
    }
    var base := TrimPrefix(name, InnerPrefix);
    base := TrimSuffix(base, InnerSuffix);
    b := '-' !in base;
  }

  /** The selection loop: the first entry that qualifies, if any. */
  method SelectInner(names: seq<string>) returns (r: Option<nat>)
    ensures r.Some? ==> r.value < |names| && IsInnerCSVZip(names[r.value])
    ensures r.Some? ==> forall j | 0 <= j < r.value :: !IsInnerCSVZip(names[j])
    ensures r.None? <==> forall j | 0 <= j < |names| :: !IsInnerCSVZip(names[j])
  {
    var i := 0;
    while i < |names|
      invariant 0 <= i <= |names|
      invariant forall j | 0 <= j < i :: !IsInnerCSVZip(names[j])
    {
      var ok := Qualifies(names[i]);
      if ok {
        return Some(i);
      }
      i := i + 1;
    }
    r := None;
  }

  /** One entry of the outer archive, with the files of the archive it holds when that opens. */
  datatype OuterEntry = OuterEntry(name: string, inner: Option<seq<ArchiveFile>>)

  datatype ZipError =
    | NoInnerArchive
    | OpenInnerFailed(name: string)

  /** `openInnerCSVZip`: the files of the first qualifying entry, or why there are none. */
  method OpenInnerCSVZip(outer: seq<OuterEntry>) returns (r: Result<seq<ArchiveFile>, ZipError>)
    ensures r.Err? && r.error == NoInnerArchive <==> forall j | 0 <= j < |outer| :: !IsInnerCSVZip(outer[j].name)
    ensures r.Ok? ==> exists i | 0 <= i < |outer| ::
      && IsInnerCSVZip(outer[i].name) && outer[i].inner == Some(r.value)
      && forall j | 0 <= j < i :: !IsInnerCSVZip(outer[j].name)
    ensures r.Err? && r.error.OpenInnerFailed? ==> exists i | 0 <= i < |outer| ::
      && IsInnerCSVZip(outer[i].name) && outer[i].inner.None? && r.error.name == outer[i].name
      && forall j | 0 <= j < i :: !IsInnerCSVZip(outer[j].name)
  {
    var names := seq(|outer|, j requires 0 <= j < |outer| => outer[j].name);
    assert forall j | 0 <= j < |outer| :: names[j] == outer[j].name;
    var found := SelectInner(names);
    if found.None? {
      return Err(NoInnerArchive);
    }
    var e := outer[found.value];
    if e.inner.None? {
      return Err(OpenInnerFailed(e.name));
    }
    r := Ok(e.inner.value);
  }
}
