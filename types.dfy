/** The catalog's data types: resource kinds, categories, catalog entries and chat messages. */
module Types {

  datatype Option<T> = None | Some(value: T)

  /** The two kinds of resource; the source calls the field that holds it `type`. */
  datatype ResourceType = Paper | Dataset

  /** The six research categories of the catalog. */
  datatype Category = General | Reasoning | Coding | Math | Safety | Multilingual

  datatype RelatedPaper = RelatedPaper(title: string, link: string)

  datatype Role = User | Assistant

  datatype ChatMessage = ChatMessage(role: Role, content: string)

  /** One catalog entry, paper or dataset; the optional fields are `Option`s. */
  datatype ResearchItem = ResearchItem(
    id: string,
    title: string,
    authors: seq<string>,
    year: int,
    resourceType: ResourceType,
    category: Category,
    description: string,
    link: string,
    projectLink: Option<string>,
    tags: seq<string>,
    itemCount: Option<string>,
    methodology: Option<string>,
    domain: Option<string>,
    citationCount: Option<int>,
    relatedPapers: Option<seq<RelatedPaper>>)
}
