/**
 * The resolver's failures. The crate's `error` module is not part of this
 * model; these are the two `RegistryError` variants the resolver constructs,
 * with the data it hands them.
 */
module Errors {

  datatype RegistryError =
    /** No "latest" distribution tag; carries the package name. */
    | MissingLatestTag(name: string)
    /** The "latest" tag names a version absent from `versions`; carries that
        version string and the package name, in that order. */
    | MissingVersionRelease(tag: string, name: string)
}
