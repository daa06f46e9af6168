/** The document records that the stores, the reader and the question-answer
    service pass around. */
module Documents {

  /** A calendar date, as `datetime.strptime` produces it. */
  datatype Date = Date(year: nat, month: nat, day: nat)

  /** A metadata value: a string (an answer, a link), a date, or Python's `None`. */
  datatype Value = Str(s: string) | DateValue(date: Date) | Null

  /** A text passage with its metadata: a corpus passage carries `link` and
      `date`, a cached question carries its `answer`. */
  datatype Document = Document(content: string, metadata: map<string, Value>)
}
