/** The part of an Amazon Textract AnalyzeDocument response that the
    validators read: the list of blocks, each with the keys its block type
    carries. */
module Textract {
  import opened Results

  /** A "Relationships" entry of a block: its "Type" and its "Ids". */
  datatype Relationship = Relationship(relType: string, ids: seq<string>)

  /** One entry of response["Blocks"], by its "BlockType". */
  datatype Block =
    /** "CELL": a table cell with its "RowIndex", "ColumnIndex" and the
        optional "Relationships" key */
    | Cell(id: string, rowIndex: int, columnIndex: int, relationships: Option<seq<Relationship>>)
    /** "WORD" with its "Text" */
    | Word(id: string, text: string)
    /** "LINE" with its "Text" */
    | Line(id: string, text: string)
    /** "QUERY" with its "Query"["Text"] */
    | Query(id: string, queryText: string)
    /** "QUERY_RESULT" with its optional "Text" */
    | QueryResult(id: string, answer: Option<string>)
    /** any other block type ("PAGE", "TABLE", ...) */
    | OtherBlock(id: string, blockType: string)
}
