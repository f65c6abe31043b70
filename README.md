# pacquet registry resolver, modelled in Dafny

pacquet is an early package-manager CLI. Its registry crate fetches a
package's npm-style registry document and resolves the `"latest"`
distribution tag to a release and that release's tarball URL. This project
models that resolver: the three record types `PackageDistribution`,
`PackageVersion` and `Package`, and the three lookups `get_latest_tag`,
`get_latest_version` and `get_tarball_url`.

- `wrappers.dfy`: `Option` with `OkOr` (Rust's `Option::ok_or`) and a
  `Result` usable with `:-` (Rust's `?`).
- `errors.dfy`: the two `RegistryError` variants the resolver raises,
  with the data the source passes to them.
- `package.dfy`: the records, the three lookups written as the source's
  chain (`HashMap::get`, then `ok_or`, then the field projection), and
  the properties of a single document.
- `locality.dfy`: resolution is local. The result depends only on the
  package name, the `"latest"` tag and the one `versions` entry it names.
  The document has no mutation API. So the changes a registry can make
  between fetches are written as explicit edits: set or remove a tag,
  publish or remove a version. The lemmas say which edits the resolver
  can observe.

The source calls `.unwrap()` on each lookup and panics on a failure. Here
each panic is the `Err` branch of a `Result`, carrying the error value the
source builds just before the `unwrap`. A missing `"latest"` tag stops
`GetLatestVersion` before it looks at `versions`, just as the panic inside
`get_latest_tag` does.

In `get_tarball_url`, `.to_owned()` is applied to a `&PackageVersion`.
`PackageVersion` does not implement `Clone`, so this call copies the
reference and changes nothing. The model projects the field directly.

## Model

| member | source | states |
|---|---|---|
| RegistryPackage.GetLatestTag | crates/registry/src/package.rs:53-58 | succeeds exactly when `"latest"` is a key of the tags and then returns its value; otherwise fails with `MissingLatestTag` carrying the package name |
| RegistryPackage.GetLatestVersion | crates/registry/src/package.rs:60-68 | succeeds exactly when the tag exists and names a key of `versions`, returning that entry; a missing tag gives `MissingLatestTag(name)` without consulting `versions`; a dangling tag gives `MissingVersionRelease(tag, name)` |
| RegistryPackage.GetTarballUrl | crates/registry/src/package.rs:70-72 | succeeds exactly when `GetLatestVersion` does, returns that release's `dist.tarball`, and on failure returns the very same error (no failure mode of its own) |
| RegistryPackage.Get | crates/registry/src/package.rs:54-55 | models `HashMap::get`: `Some` exactly when the key is present, holding the mapped value (also used at line 61-62) |
| Wrappers.Option.OkOr | crates/registry/src/package.rs:56 | models `Option::ok_or`: `Ok` of the held value exactly when `Some`, otherwise `Err` of the given error (also used at line 63-66) |
| RegistryPackage.FailureKinds | crates/registry/src/package.rs:53-72 | the tarball lookup reports `MissingLatestTag` exactly when the tag is absent and `MissingVersionRelease` exactly when the tag dangles |
| RegistryPackage.ConsistentDocumentResolves | crates/registry/src/package.rs:60-72 | on a document where every tag names a published version, resolution succeeds exactly when `"latest"` exists, and otherwise fails only with `MissingLatestTag` |
| RegistryPackage.LeftPadResolves | crates/registry/src/package.rs:53-72 | a one-version document resolves to tag `1.0.0` and to that version's tarball URL |
| RegistryPackage.DanglingTagFails | crates/registry/src/package.rs:60-68 | any document, whatever its name and other tags and versions, whose `"latest"` tag is `"9.9.9"` while no version `"9.9.9"` is published fails with `MissingVersionRelease("9.9.9", name)` for both the version and the tarball lookup |
| Locality.ResolutionIsLocal | crates/registry/src/package.rs:53-72 | two documents that agree on the name, the `"latest"` tag and the entry it names give identical results for all three lookups (with equal documents: repeated calls agree) |
| Locality.ApplyEditKeepsInputs | crates/registry/src/package.rs:54-62 | an edit to another tag or another version entry keeps everything the resolver reads |
| Locality.EditsKeepInputs | crates/registry/src/package.rs:54-62 | any sequence of such edits keeps everything the resolver reads (induction over the sequence) |
| Locality.EditsPreserveResolution | crates/registry/src/package.rs:53-72 | any sequence of edits that avoids the `"latest"` tag and the version it names leaves all three results unchanged |
| Locality.RemovingLatestTagFails | crates/registry/src/package.rs:54-57 | removing the `"latest"` tag always makes resolution fail with `MissingLatestTag(name)` |
| Locality.RemovingLatestReleaseFails | crates/registry/src/package.rs:61-66 | removing the version `"latest"` names makes resolution fail with `MissingVersionRelease(tag, name)` |
| Locality.PublishingLatestReleaseResolves | crates/registry/src/package.rs:60-72 | publishing a release under the version `"latest"` names makes it the resolved release and its tarball the resolved URL |
| Locality.RetaggingLatestResolves | crates/registry/src/package.rs:53-68 | pointing `"latest"` at a published version resolves to that version's entry |

## Left out

- `Package::from_registry` (HTTP GET through `reqwest`, then JSON decoding). This is network I/O through a foreign library, so its `Network` and `Serialization` errors are not modelled either.
- The serde field aliases (`dist-tags`, `_npmVersion`, `_nodeVersion`, `npm-signature`, `devDependencies`). They act only inside the derived deserializer, which is not visible, so they appear as comments only.
- The contents of `dependencies` and `devDependencies`. They are carried as opaque maps, because no code reads or validates them.
- The panic itself. An aborted process is modelled as the `Err` value that `.unwrap()` would have panicked on.
- The crate's `error` module is not part of this model. Its resolver variants are redefined locally with the fields the resolver passes to them.
- The CLI command definition (`clap` builder configuration). It has no logic of its own.
- Borrowing and lifetimes (`&self`, `&String`, `&str`). Dafny values are immutable, so a lookup that does not modify its `Package` is modelled as a function of that value.
