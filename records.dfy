/** The publication records the crawler produces and the search returns. */
module Records {

  /** One author of a publication: `{"name": ..., "profile_link": ...}`. */
  datatype Author = Author(name: string, profileLink: string)

  /** One publication: `{"title": ..., "link": ..., "authors": [...], "date": ...}`. */
  datatype Paper = Paper(title: string, link: string, authors: seq<Author>, date: string)
}
