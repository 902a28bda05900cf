/** The records the browser window receives from the API connector. */
module Catalog {

  /** A method as the method listing gives it: its slash-separated name (for example
      "services/oauth/request_token") and its one-line description, shown as the tree
      node's tooltip. */
  datatype ApiMethod = ApiMethod(name: string, briefDescription: string)

  /** One argument of a method's detailed description. */
  datatype Argument = Argument(name: string, isRequired: bool)

  /** A method's detailed description. `authToken` and `authConsumer` hold the server's
      words for whether a token or a consumer key is used ("ignored", "optional",
      "required"); they are kept as text because the window compares them as text. */
  datatype MethodDetail = MethodDetail(
    name: string,
    briefDescription: string,
    refUrl: string,
    arguments: seq<Argument>,
    authToken: string,
    authConsumer: string,
    sslRequired: bool)

  /** An installation of the API, known by its base URL. */
  datatype Installation = Installation(baseUrl: string)

  /** An authorization scope a user can ask a token for. */
  datatype Scope = Scope(key: string, description: string)
}
