/** The classes a recipe is assembled from, with every field the content hash looks at, and the two it does not. */
module RecipeClasses {
  import opened Wrappers
  import opened Decimals
  import S = Schema

  /** A dictionary of texts, in the order its keys were put in. */
  type Texts = seq<(string, string)>

  /** Prose in several languages, and for each translation the hash of the source it was made from. */
  datatype LocalizedText = LocalizedText(source: string, values: Texts, staleAgainst: Texts)

  datatype IngredientUse = IngredientUse(
    id: string, name: string, ingredientId: Option<string>, quantity: Option<S.Spec>, optional: bool,
    prep: Option<LocalizedText>, notes: Option<LocalizedText>)

  datatype CookwareUse = CookwareUse(id: string, name: LocalizedText, quantity: Option<Dec>,
                                     notes: Option<LocalizedText>)

  datatype Timer = Timer(name: Option<LocalizedText>, quantity: S.Quantity)

  datatype Chunk =
    | LiteralChunk(text: LocalizedText)
    | IngredientChunk(ref: string)
    | CookwareChunk(ref: string)
    | StateChunk(ref: string)
    | TimerChunk(index: int)
    | TemperatureChunk(index: int)

  datatype FoodState = FoodState(id: string, name: Option<LocalizedText>)

  datatype Action = Action(
    id: string, order: int, verb: Option<LocalizedText>, uses: seq<string>, ingredients: seq<IngredientUse>,
    cookware: seq<CookwareUse>, timers: seq<Timer>, temperatures: seq<S.Temperature>, produces: FoodState,
    text: Option<seq<Chunk>>, notes: Option<LocalizedText>)

  datatype Origin = Authored | Imported | Forked

  datatype Provenance = Provenance(
    origin: Origin, sourceUrl: Option<string>, sourceTitle: Option<string>, author: Option<string>,
    licenseSpdx: Option<string>, attribution: Option<string>, notes: Option<string>,
    retrievedAt: Option<string>, importer: Option<string>)

  datatype Visibility = Private | Unlisted | Public

  datatype Recipe = Recipe(
    id: string, sourceLang: string, title: LocalizedText, description: Option<LocalizedText>, servings: Option<int>,
    visibility: Visibility, tags: seq<string>, actions: seq<Action>, provenance: Provenance)
}
