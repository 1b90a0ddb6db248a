/** Optional values, results, and the failures the validators raise.
    Each constructor of Error stands for one exception the Python code can
    raise on a path that the model covers. */
module Results {

  datatype Option<+T> = None | Some(value: T)

  datatype Result<+T> = Ok(value: T) | Err(error: Error)

  datatype Error =
    /** ValueError from CriteriaResult.score: the value is neither a bool nor a str */
    | NonBooleanValue
    /** ZeroDivisionError in calculate_confidence_score: the pooled weight is zero */
    | ZeroTotalWeight
    /** KeyError on ERROR_MSGS: a failed criterion has no feedback message */
    | MissingMessage(key: string)
    /** ValueError from map_headers: a required column was not found */
    | MissingColumns
    /** IndexError on table_rows[0]: the extracted table has no row at all */
    | EmptyTable
    /** ValueError from the DataFrame constructor: header count and data width differ */
    | ColumnCountMismatch(headers: nat, width: nat)
    /** KeyError on df[name]: no column carries that name */
    | NoSuchColumn(name: string)
    /** several columns carry the same name after renaming */
    | AmbiguousColumn(name: string)
    /** TypeError from the date parser: a row has no cell in the date column */
    | MissingDateCell
    /** AttributeError from normalize_cost: a row has no cell in the cost column */
    | MissingCostCell
    /** ValueError from float(): the text is not a number */
    | NotANumber(text: string)
    /** IndexError on output[-1]: a QUERY_RESULT block before any QUERY block */
    | ResultBeforeQuery
    /** KeyError on the queries table: a QUERY block asks an unknown question */
    | UnknownQuery(text: string)
    /** ValueError("Response format is incorrect") from parse_llm_response */
    | BadResponseFormat
}
