/** The records the pipeline reads and writes: the recipe returned by the
    language model (after JSON parsing), enriched with colours and a thumbnail
    path, and the reduced entry kept in `data/recipes.json`. */
module Recipes {
  import opened Wrappers
  import opened Colors

  datatype Source = Source(url: string, platform: string, creator: string)

  datatype Metadata = Metadata(time: string, difficulty: string, tags: seq<string>)

  datatype Ingredient = Ingredient(
    item: string,
    amount: Option<string>,
    prep: Option<string>,
    note: Option<string>)

  /** A recipe record. `colors` and `thumbnail` are the two keys that
      `save_to_github` adds; a record straight from the model normally has
      neither. */
  datatype Recipe = Recipe(
    title: string,
    source: Source,
    metadata: Metadata,
    ingredients: seq<Ingredient>,
    instructions: seq<string>,
    notes: string,
    colors: Option<ColorScheme>,
    thumbnail: Option<string>)

  /** One element of the index's `recipes` list. */
  datatype IndexEntry = IndexEntry(
    title: string,
    source: Source,
    metadata: Metadata,
    colors: ColorScheme,
    thumbnail: Option<string>)
}
