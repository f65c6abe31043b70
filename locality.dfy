/**
 * Resolution is tag-driven and local: the three resolver results depend only
 * on the package name, the value of the "latest" tag and the one `versions`
 * entry that value names. The document has no mutation API, so the changes
 * a registry could make between two fetches are spelled out as edits, and
 * the lemmas say which edits the resolver cannot observe.
 */
module Locality {
  import opened Wrappers
  import opened Errors
  import opened RegistryPackage

  /** What the resolver reads of a document. */
  ghost predicate SameResolutionInputs(p: Package, q: Package) {
    && p.name == q.name
    && (Latest in p.distTags <==> Latest in q.distTags)
    && (Latest in p.distTags ==>
          var tag := p.distTags[Latest];
          && q.distTags[Latest] == tag
          && (tag in p.versions <==> tag in q.versions)
          && (tag in p.versions ==> p.versions[tag] == q.versions[tag]))
  }

  /** Two documents that agree on what the resolver reads resolve alike; with
      `q == p` this is also the determinism of all three operations. */
  lemma ResolutionIsLocal(p: Package, q: Package)
    requires SameResolutionInputs(p, q)
    ensures GetLatestTag(p) == GetLatestTag(q)
    ensures GetLatestVersion(p) == GetLatestVersion(q)
    ensures GetTarballUrl(p) == GetTarballUrl(q)
  {
  }

  /** A change a registry can make to a document between two fetches. */
  datatype Edit =
    | SetTag(tag: string, version: string)
    | RemoveTag(tag: string)
    | PutVersion(key: string, release: PackageVersion)
    | RemoveVersion(key: string)

  function ApplyEdit(p: Package, e: Edit): (q: Package)
    ensures q.name == p.name
  {
    match e
    case SetTag(tag, version) => p.(distTags := p.distTags[tag := version])
    case RemoveTag(tag) => p.(distTags := p.distTags - {tag})
    case PutVersion(key, release) => p.(versions := p.versions[key := release])
    case RemoveVersion(key) => p.(versions := p.versions - {key})
  }

  function ApplyEdits(p: Package, edits: seq<Edit>): (q: Package)
    decreases |edits|
  {
    if edits == [] then p else ApplyEdits(ApplyEdit(p, edits[0]), edits[1..])
  }

  /** The edit changes neither the "latest" tag nor the version it names. */
  ghost predicate AvoidsResolution(p: Package, e: Edit) {
    match e
    case SetTag(tag, _) => tag != Latest
    case RemoveTag(tag) => tag != Latest
    case PutVersion(key, _) => Latest in p.distTags ==> key != p.distTags[Latest]
    case RemoveVersion(key) => Latest in p.distTags ==> key != p.distTags[Latest]
  }

  lemma ApplyEditKeepsInputs(p: Package, e: Edit)
    requires AvoidsResolution(p, e)
    ensures SameResolutionInputs(p, ApplyEdit(p, e))
  {
  }

  /** Resolution inputs are shared by documents that agree on them, so an edit
      that avoids one of them avoids the other. */
  lemma SameInputsTransitive(p: Package, q: Package, r: Package)
    requires SameResolutionInputs(p, q) && SameResolutionInputs(q, r)
    ensures SameResolutionInputs(p, r)
  {
  }

  /** Any sequence of edits that leaves the "latest" tag and the release it
      names alone leaves every resolver result unchanged. */
  lemma {:induction false} EditsKeepInputs(p: Package, edits: seq<Edit>)
    requires forall i :: 0 <= i < |edits| ==> AvoidsResolution(p, edits[i])
    ensures SameResolutionInputs(p, ApplyEdits(p, edits))
    decreases |edits|
  {
    if edits != [] {
      var p1 := ApplyEdit(p, edits[0]);
      ApplyEditKeepsInputs(p, edits[0]);
      forall i | 0 <= i < |edits[1..]|
        ensures AvoidsResolution(p1, edits[1..][i])
      {
        assert AvoidsResolution(p, edits[i + 1]);
      }
      EditsKeepInputs(p1, edits[1..]);
      SameInputsTransitive(p, p1, ApplyEdits(p1, edits[1..]));
    }
  }

  lemma EditsPreserveResolution(p: Package, edits: seq<Edit>)
    requires forall i :: 0 <= i < |edits| ==> AvoidsResolution(p, edits[i])
    ensures GetLatestTag(ApplyEdits(p, edits)) == GetLatestTag(p)
    ensures GetLatestVersion(ApplyEdits(p, edits)) == GetLatestVersion(p)
    ensures GetTarballUrl(ApplyEdits(p, edits)) == GetTarballUrl(p)
  {
    EditsKeepInputs(p, edits);
    ResolutionIsLocal(p, ApplyEdits(p, edits));
  }

  /** The converse direction: the inputs the resolver reads do steer it.
      Removing "latest" always yields the missing-tag error. */
  lemma RemovingLatestTagFails(p: Package)
    ensures GetTarballUrl(ApplyEdit(p, RemoveTag(Latest))) == Err(MissingLatestTag(p.name))
  {
  }

  /** Unpublishing the release "latest" names yields the missing-release error. */
  lemma RemovingLatestReleaseFails(p: Package)
    requires Latest in p.distTags
    ensures var tag := p.distTags[Latest];
            GetTarballUrl(ApplyEdit(p, RemoveVersion(tag))) == Err(MissingVersionRelease(tag, p.name))
  {
  }

  /** Publishing a release under the version "latest" names makes it the
      resolved one. */
  lemma PublishingLatestReleaseResolves(p: Package, release: PackageVersion)
    requires Latest in p.distTags
    ensures GetLatestVersion(ApplyEdit(p, PutVersion(p.distTags[Latest], release))) == Ok(release)
    ensures GetTarballUrl(ApplyEdit(p, PutVersion(p.distTags[Latest], release))) == Ok(release.dist.tarball)
  {
  }

  /** Retagging "latest" to a published version resolves to that version. */
  lemma RetaggingLatestResolves(p: Package, version: string)
    requires version in p.versions
    ensures GetLatestVersion(ApplyEdit(p, SetTag(Latest, version))) == Ok(p.versions[version])
  {
  }
}
