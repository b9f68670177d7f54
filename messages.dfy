/** The records the chat component works with. */
module Messages {

  /** `'user' | 'assistant'` */
  datatype Role = User | Assistant

  /** One turn of the conversation: who said it and what, with citation
      markers in compact `^<digits>` form. */
  datatype Message = Message(role: Role, content: string)

  /** The stock optional value, for the handlers that may produce nothing. */
  datatype Option<T> = None | Some(value: T)

  /** The six citation styles offered in the style selector. */
  datatype CitationStyle = APA | MLA | Chicago | Harvard | IEEE | Nature

  /** The four reply languages offered in the language selector. */
  datatype Language = English | Indonesian | Arabic | Chinese
}
