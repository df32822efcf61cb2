/** Values shared by the scraper, the cleaner and the pipeline. */
module Records {

  datatype Option<+T> = None | Some(value: T)

  /** The outcome of a Python call that either returns a value or raises. */
  datatype Result<+T, +E> = Ok(value: T) | Err(error: E)

  /** The outcome of a Python call that returns nothing or raises. */
  datatype Outcome<+E> = Pass | Fail(error: E)

  /** A calendar date as a day ordinal: 0001-01-01 is day 1, the smallest date Python can represent. */
  type Day = d: int | d >= 1 witness 1

  /** One scraped article: the dictionary assembled for every content block of a page. */
  datatype Article = Article(title: string, link: string, date: string, description: string)

}
