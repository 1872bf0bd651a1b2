/**
 * The cell styles the sheet uses: line edges, borders and solid fills, as
 * declared at the top of the sheet builder. An upper-case letter in a border
 * name is a medium edge, a lower-case one a thin edge, a missing letter no
 * edge (left, right, top, bottom).
 */
module Styles {
  datatype Edge = NoLine | Thin | Medium

  datatype Border = Border(left: Edge, right: Edge, top: Edge, bottom: Edge)

  /** A solid fill of the given RGB colour. */
  datatype Fill = Solid(rgb: string)

  const FillWhite := Solid("FFFFFF")
  const FillLightGrey := Solid("F2F2F2")

  const BorderLrTb := Border(Medium, Thin, Medium, Thin)
  const BorderLr := Border(Medium, Thin, NoLine, NoLine)
  const BorderLrtB := Border(Medium, Thin, Thin, Medium)
  const BorderlrTb := Border(Thin, Thin, Medium, Thin)
  const BorderlRTb := Border(Thin, Medium, Medium, Thin)
  const Borderlt := Border(Thin, NoLine, Thin, NoLine)
  const Borderl := Border(Thin, NoLine, NoLine, NoLine)
  const BorderR := Border(NoLine, Medium, NoLine, NoLine)
  const BorderlrtB := Border(Thin, Thin, Thin, Medium)
  const BorderlRtB := Border(Thin, Medium, Thin, Medium)
}
