/**
  Archive layout detection: which member of the archive listing is the
  manifest, and whether the archive has an overrides tree.
*/
module Layout {
  import opened Base
  import opened Text

  const ManifestName: string := "modrinth.index.json"
  const OverridesPrefix: string := "overrides/"

  /** What the listing says about the archive. */
  datatype Layout = Layout(indexMember: Option<string>, hasOverrides: bool, overridesPrefix: Option<string>)

  /** A member is the manifest when its last path component is the manifest name, ignoring case and `\` versus `/`. */
  predicate IsManifestMember(name: string) {
    Lower(LastComponent(ToSlash(name))) == ManifestName
  }

  /** A member that belongs to the overrides tree, or is its root. */
  predicate IsOverridesMember(name: string) {
    var n := ToSlash(name);
    StartsWith(n, OverridesPrefix) || n == "overrides" || n == "overrides/"
  }

  /** `names[i]` is a manifest member and no earlier member is. */
  predicate FirstManifestAt(names: seq<string>, i: int) {
    0 <= i < |names| && IsManifestMember(names[i]) && forall j :: 0 <= j < i ==> !IsManifestMember(names[j])
  }

  /** Two scans over the listing: the first manifest member, then whether any overrides member exists. */
  method FindIndexAndOverrides(names: seq<string>) returns (layout: Layout)
    ensures match layout.indexMember
              case Some(m) => exists i :: FirstManifestAt(names, i) && names[i] == m
              case None => forall i :: 0 <= i < |names| ==> !IsManifestMember(names[i])
    ensures layout.hasOverrides <==> layout.overridesPrefix == Some(OverridesPrefix)
    ensures layout.overridesPrefix.Some? ==> layout.hasOverrides
    ensures layout.hasOverrides <==>
              exists i :: 0 <= i < |names| && IsOverridesMember(names[i])
  {
    var indexMember := FindIndexMember(names);
    var overridesPrefix := FindOverridesRoot(names);
    layout := Layout(indexMember, overridesPrefix.Some?, overridesPrefix);
  }

  /** The first scan: the first member whose last component is the manifest name. */
  method FindIndexMember(names: seq<string>) returns (indexMember: Option<string>)
    ensures match indexMember
              case Some(m) => exists i :: FirstManifestAt(names, i) && names[i] == m
              case None => forall i :: 0 <= i < |names| ==> !IsManifestMember(names[i])
  {
    indexMember := None;
    var i := 0;
    while i < |names|
      invariant 0 <= i <= |names|
      invariant forall j :: 0 <= j < i ==> !IsManifestMember(names[j])
    {
      if IsManifestMember(names[i]) {
        indexMember := Some(names[i]);
        assert FirstManifestAt(names, i);
        return;
      }
      i := i + 1;
    }
  }

  /** The second scan: `overrides/` as soon as some member is the overrides root or lies below it. */
  method FindOverridesRoot(names: seq<string>) returns (overridesPrefix: Option<string>)
    ensures overridesPrefix.Some? ==> overridesPrefix == Some(OverridesPrefix)
    ensures overridesPrefix.Some? <==>
              exists i :: 0 <= i < |names| && IsOverridesMember(names[i])
  {
    overridesPrefix := None;
    var k := 0;
    while k < |names|
      invariant 0 <= k <= |names|
      invariant forall j :: 0 <= j < k ==> !IsOverridesMember(names[j])
    {
      if IsOverridesMember(names[k]) {
        overridesPrefix := Some(OverridesPrefix);
        return;
      }
      k := k + 1;
    }
  }

  /** The test `n == 'overrides/'` is subsumed by the prefix test. */
  lemma OverridesMemberSimplified(name: string)
    ensures IsOverridesMember(name) <==> StartsWith(ToSlash(name), OverridesPrefix) || ToSlash(name) == "overrides"
  {
  }

}
