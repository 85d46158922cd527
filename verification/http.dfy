/** What a handler sends back: a status code and a body. */
module Http {
  import opened Music

  datatype Payload =
    | Text(text: string)          // res.send(string), res.status(n).send(string)
    | TokenJson(token: string)    // res.json({ token })
    | RowJson(row: Row)           // res.json(results[0])

  datatype Response = Response(status: nat, payload: Payload)

  /** `res.status(code).send(text)`. */
  function Send(code: nat, text: string): Response {
    Response(code, Text(text))
  }
}
