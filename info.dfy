/** The package description read from the manifest (src/info.rs) and the rule that picks the
    program's title and the name of its default argument from it. */
module Info {
  import opened Wrappers

  /** The optional `[package.metadata]` table. */
  datatype Metadata = Metadata(title: Option<string>, defaultArgument: Option<string>)

  /** The `[package]` table. */
  datatype Package = Package(
    name: string,
    description: Option<string>,
    version: string,
    metadata: Option<Metadata>)

  /** The default argument name when the manifest gives none. */
  const DefaultArgument := "args"

  /** The title and the default argument name: each is taken from the metadata when the
      metadata table and that entry are both present, and otherwise falls back to the package
      name and to `args` respectively. */
  function GetMetadata(p: Package): (r: (string, string))
    ensures p.metadata.None? ==> r == (p.name, DefaultArgument)
    ensures p.metadata.Some? && p.metadata.value.title.Some? ==> r.0 == p.metadata.value.title.value
    ensures p.metadata.Some? && p.metadata.value.title.None? ==> r.0 == p.name
    ensures p.metadata.Some? && p.metadata.value.defaultArgument.Some? ==>
              r.1 == p.metadata.value.defaultArgument.value
    ensures p.metadata.Some? && p.metadata.value.defaultArgument.None? ==> r.1 == DefaultArgument
  {
    var title := p.name;
    var defaultArgument := DefaultArgument;
    if p.metadata.Some? then
      var title := match p.metadata.value.title
        case Some(t) => t
        case None => title;
      var defaultArgument := match p.metadata.value.defaultArgument
        case Some(d) => d
        case None => defaultArgument;
      (title, defaultArgument)
    else
      (title, defaultArgument)
  }

  /** An empty metadata table behaves as no table at all. */
  lemma EmptyMetadataIsAbsent(p: Package)
    ensures GetMetadata(p.(metadata := Some(Metadata(None, None)))) == GetMetadata(p.(metadata := None))
  {
  }

  /** The title and default argument depend only on the name and the metadata, never on the
      description or the version. */
  lemma MetadataIgnoresDescriptionAndVersion(p: Package, description: Option<string>, version: string)
    ensures GetMetadata(p.(description := description, version := version)) == GetMetadata(p)
  {
  }
}
