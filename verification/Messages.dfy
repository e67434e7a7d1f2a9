/** What every transcript parser produces. */
module Messages {
  datatype Pair = Pair(query: string, response: string)
}
