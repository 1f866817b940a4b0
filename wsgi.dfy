/**
 * What both servers share with the applications they run (PEP 333): the
 * environment dictionary and an application's reply.
 */
module Wsgi {
  /** The values an environment holds: strings, numbers, flags, the
   *  `(1, 0)` version tuple, `None`, and objects (streams, callables) named
   *  by what they stand for. */
  datatype Item =
    | Text(s: string)
    | Number(n: int)
    | Flag(b: bool)
    | WsgiVersion(major: nat, minor: nat)
    | NoValue
    | Handle(name: string)

  type Environ = map<string, Item>

  /** What an application does when called: one `start_response(status,
   *  headers)` call, then the pieces of the body it returns. */
  datatype AppReply = AppReply(status: string, headers: seq<(string, string)>, body: seq<string>)
}
