/** The command line as the program sees it after argument parsing. The
    parser itself is a foreign library; only its two outcomes are modelled. */
module Arguments {

  /** The action selector. The five named actions are the ones the program
      dispatches on; Unlisted stands for any other value of the enumeration. */
  datatype Action = CreateIndex | Index | LargeIndex | Query | DeleteIndex | Unlisted(code: int)

  /** The parsed options: the help flag, the action, the server address and
      the index name. */
  datatype Options = Options(help: bool, action: Action, server: string, index: string)

  /** Parsing either succeeds or throws an argument exception (a missing
      required option, an unknown switch, a malformed value). */
  datatype ParseOutcome = Parsed(options: Options) | ArgError(message: string)
}
