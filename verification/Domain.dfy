/** The recipe as the rest of the program sees it. */
module Domain {
  import opened Wrappers

  datatype Category = Category(id: int, name: string)

  /** One ingredient line. An id of zero, or no unit id, stands for "by name". */
  datatype Line = Line(ingredientID: int, ingredientName: string, amount: real, unitID: Option<int>, unitName: string)

  datatype Recipe = Recipe(id: int, name: string, instructions: string, imageURL: string, source: string,
                           status: string, lines: seq<Line>, categories: seq<Category>,
                           createdAt: int, updatedAt: int)
}
