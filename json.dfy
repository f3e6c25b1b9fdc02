/** The fields of a request's JSON body as the Next.js handlers see them. */
module Json {

  /** A field of the parsed body: missing, a string, or any other JSON value. */
  datatype Field = Absent | Text(text: string) | Other
}
