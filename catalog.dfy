/**
 * The book record of the catalog. Title and author are required string
 * fields, genre and description are optional.
 */
module Catalog {
  import opened Outcomes

  /** A catalog entry as the document schema defines it. */
  datatype Book = Book(title: string, author: string, genre: Option<string>, description: Option<string>)

  /**
   * A string field declared `required` is satisfied only by a string that is
   * present and not empty.
   */
  predicate Supplied(field: Option<string>)
  {
    field.Some? && |field.value| > 0
  }

  /**
   * Validates the fields of a new book as the schema does: the book exists
   * only when both required fields are supplied, and then it carries every
   * field exactly as given.
   */
  function NewBook(title: Option<string>, author: Option<string>, genre: Option<string>, description: Option<string>): (r: Option<Book>)
    ensures r.Some? <==> Supplied(title) && Supplied(author)
    ensures r.Some? ==> Some(r.value.title) == title && Some(r.value.author) == author
    ensures r.Some? ==> r.value.genre == genre && r.value.description == description
  {
    if Supplied(title) && Supplied(author) then Some(Book(title.value, author.value, genre, description))
    else None
  }
}
