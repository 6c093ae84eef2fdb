/** The two metadata keys the classify commands edit (`HexoMetadataKeys.tags`
    and `HexoMetadataKeys.categories`), named by their YAML key. */
module HexoMetadata {

  datatype ClassifyKey = Tags | Categories {
    /** The YAML key name, as it appears in front matter. */
    function Name(): string {
      match this
      case Tags => "tags"
      case Categories => "categories"
    }

    /** The singular alias the readers fall back to. */
    function Alias(): string {
      match this
      case Tags => "tag"
      case Categories => "category"
    }
  }
}
