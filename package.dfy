/**
 * The registry document of one npm-style package and the resolver that
 * turns its "latest" distribution tag into a version record and a tarball
 * URL. Every lookup is a read of immutable maps; the source's `.unwrap()`
 * panics are the `Err` branches of the results here.
 */
module RegistryPackage {
  import opened Wrappers
  import opened Errors

  /** One downloadable artifact of a version. The deserializer also accepts
      the JSON key `npm-signature` for the source field `npm_signature`. */
  datatype PackageDistribution = PackageDistribution(
    integrity: string,
    npmSignature: Option<string>,
    shasum: string,
    tarball: string)

  /** One published release. The deserializer also accepts the JSON keys
      `_npmVersion`, `_nodeVersion` and `devDependencies` for the source
      fields `npm_version`, `node_version` and `dev_dependencies`. Dependency
      maps are carried and never read. */
  datatype PackageVersion = PackageVersion(
    npmVersion: string,
    nodeVersion: Option<string>,
    dist: PackageDistribution,
    dependencies: Option<map<string, string>>,
    devDependencies: Option<map<string, string>>)

  /** The whole registry document. The deserializer also accepts the JSON
      key `dist-tags` for the source field `dist_tags`. */
  datatype Package = Package(
    name: string,
    distTags: map<string, string>,
    versions: map<string, PackageVersion>)

  /** The only distribution tag the resolver consults. */
  const Latest: string := "latest"

  /** Rust's `HashMap::get`. */
  function Get<K, V>(m: map<K, V>, key: K): (r: Option<V>)
    ensures r.Some? <==> key in m
    ensures r.Some? ==> r.value == m[key]
  {
    if key in m then Some(m[key]) else None
  }

  /** `get_latest_tag`: the version string the "latest" tag points at. */
  function GetLatestTag(p: Package): (r: Result<string, RegistryError>)
    ensures r.Ok? <==> Latest in p.distTags
    ensures r.Ok? ==> r.value == p.distTags[Latest]
    ensures r.Err? ==> r.error == MissingLatestTag(p.name)
  {
    Get(p.distTags, Latest).OkOr(MissingLatestTag(p.name))
  }

  /** `get_latest_version`: the release the "latest" tag names. A missing tag
      fails before `versions` is consulted. */
  function GetLatestVersion(p: Package): (r: Result<PackageVersion, RegistryError>)
    ensures r.Ok? <==> Latest in p.distTags && p.distTags[Latest] in p.versions
    ensures r.Ok? ==> r.value == p.versions[p.distTags[Latest]]
    ensures Latest !in p.distTags ==> r == Err(MissingLatestTag(p.name))
    ensures Latest in p.distTags && p.distTags[Latest] !in p.versions ==>
              r == Err(MissingVersionRelease(p.distTags[Latest], p.name))
  {
    var tag :- GetLatestTag(p);
    Get(p.versions, tag).OkOr(MissingVersionRelease(tag, p.name))
  }

  /** `get_tarball_url`: the download URL of the latest release. It fails
      exactly when `GetLatestVersion` fails, with the same error. */
  function GetTarballUrl(p: Package): (r: Result<string, RegistryError>)
    ensures r.Ok? <==> GetLatestVersion(p).Ok?
    ensures r.Ok? ==> r.value == GetLatestVersion(p).value.dist.tarball
    ensures r.Err? ==> r.error == GetLatestVersion(p).error
    ensures r.Ok? ==> r.value == p.versions[p.distTags[Latest]].dist.tarball
  {
    var release :- GetLatestVersion(p);
    Ok(release.dist.tarball)
  }

  /** The registry's own consistency rule: every tag names a published version.
      The resolver does not check it; a document that breaks it can fail with
      `MissingVersionRelease`. */
  ghost predicate TagsResolve(p: Package) {
    forall tag :: tag in p.distTags ==> p.distTags[tag] in p.versions
  }

  /** On a consistent document, the only way resolution fails is a missing
      "latest" tag. */
  lemma ConsistentDocumentResolves(p: Package)
    requires TagsResolve(p)
    ensures GetTarballUrl(p).Ok? <==> Latest in p.distTags
    ensures GetTarballUrl(p).Err? ==> GetTarballUrl(p).error == MissingLatestTag(p.name)
  {
  }

  /** The two failures are told apart by the document alone: a missing tag
      never reports a missing release and vice versa. */
  lemma FailureKinds(p: Package)
    ensures GetTarballUrl(p).Err? && GetTarballUrl(p).error.MissingLatestTag? <==> Latest !in p.distTags
    ensures GetTarballUrl(p).Err? && GetTarballUrl(p).error.MissingVersionRelease? <==>
              Latest in p.distTags && p.distTags[Latest] !in p.versions
  {
  }

  /** A document with a single published version, as the registry serves it. */
  function LeftPad(): Package {
    var dist := PackageDistribution("sha512-abc", None, "0123abcd", "https://registry.example/left-pad-1.0.0.tgz");
    var release := PackageVersion("6.4.1", Some("10.1.0"), dist, None, None);
    Package("left-pad", map[Latest := "1.0.0"], map["1.0.0" := release])
  }

  /** The happy path returns that version's tarball URL. */
  lemma LeftPadResolves()
    ensures GetLatestTag(LeftPad()) == Ok("1.0.0")
    ensures GetTarballUrl(LeftPad()) == Ok("https://registry.example/left-pad-1.0.0.tgz")
  {
  }

  /** Any document whose "latest" tag is "9.9.9" while no version "9.9.9" is
      published reports that version and the package name. */
  lemma DanglingTagFails(name: string, tags: map<string, string>, versions: map<string, PackageVersion>)
    requires Latest in tags && tags[Latest] == "9.9.9" && "9.9.9" !in versions
    ensures GetLatestVersion(Package(name, tags, versions)) == Err(MissingVersionRelease("9.9.9", name))
    ensures GetTarballUrl(Package(name, tags, versions)) == Err(MissingVersionRelease("9.9.9", name))
  {
  }
}
