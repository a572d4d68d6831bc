/**
 * The catalog store: the entries as the page keeps them after loading, and
 * the normalisation that turns each record of the fetched JSON array into
 * an entry (the `map` in `loadCardsData`).
 */
module Catalog {
  import opened Wrappers

  /** A normalised catalog entry; ids are kept as strings. */
  datatype Entry = Entry(
    id: string,
    title: string,
    desc: string,
    url: string,
    tags: seq<string>,
    detalhes: string,
    imagens: seq<string>)

  /**
   * The `imagem` field of a fetched record: absent or another falsy value,
   * a single URL string (possibly the falsy empty string), or an array of URLs.
   */
  datatype RawImage = NoImage | ImageUrl(url: string) | ImageUrls(urls: seq<string>)

  /** One element of the fetched JSON array, with its Portuguese field names. */
  datatype RawItem = RawItem(
    id: string,
    nome: string,
    descricao: string,
    link: string,
    tags: Option<seq<string>>,
    detalhes: Option<string>,
    imagem: RawImage)

  /** The truthiness test `item.imagem ? … : …` for a value that is not an array. */
  predicate IsTruthy(image: RawImage)
  {
    image.ImageUrl? && image.url != ""
  }

  /** The image list of a record: `Array.isArray(imagem) ? imagem : (imagem ? [imagem] : [])`. */
  function Images(image: RawImage): (r: seq<string>)
    ensures image.ImageUrls? ==> r == image.urls
    ensures !image.ImageUrls? ==> |r| <= 1
    ensures IsTruthy(image) ==> r == [image.url]
    ensures !image.ImageUrls? && !IsTruthy(image) ==> r == []
  {
    match image
    case ImageUrls(urls) => urls
    case ImageUrl(url) => if url != "" then [url] else []
    case NoImage => []
  }

  /**
   * `item => ({ id, title: nome, desc: descricao, url: link, tags: tags || [],
   * detalhes: detalhes || "", imagens: … })`: renames the fields and
   * replaces what is missing by its default; nothing is rejected.
   */
  function Normalize(item: RawItem): (e: Entry)
    ensures e.id == item.id && e.title == item.nome && e.desc == item.descricao && e.url == item.link
    ensures item.tags.None? ==> e.tags == []
    ensures item.tags.Some? ==> e.tags == item.tags.value
    ensures item.detalhes.None? ==> e.detalhes == ""
    ensures item.detalhes.Some? ==> e.detalhes == item.detalhes.value
    ensures e.imagens == Images(item.imagem)
  {
    Entry(
      item.id,
      item.nome,
      item.descricao,
      item.link,
      match item.tags case Some(ts) => ts case None => [],
      // `detalhes || ""`: an empty string is falsy and yields the same empty string
      match item.detalhes case Some(d) => d case None => "",
      Images(item.imagem))
  }

  /** `data.map(normalise)`: one entry per record, in the order of the fetched array. */
  function LoadCatalog(items: seq<RawItem>): (cards: seq<Entry>)
    ensures |cards| == |items|
    ensures forall k :: 0 <= k < |items| ==> cards[k] == Normalize(items[k])
  {
    if items == [] then [] else [Normalize(items[0])] + LoadCatalog(items[1..])
  }

  /** The text of the detail view, `card.detalhes || card.desc`. */
  function DetailText(e: Entry): (r: string)
    ensures e.detalhes != "" ==> r == e.detalhes
    ensures e.detalhes == "" ==> r == e.desc
  {
    if e.detalhes != "" then e.detalhes else e.desc
  }
}
