/** The secret store as the injector sees it. */
module Vault {
  import opened Strings

  datatype Value = Null | Object(fields: map<string, Value>) | Scalar(repr: string)

  type Data = map<string, Value>

  // The data of a secret may be a nil map.
  datatype Secret = Secret(data: Option<Data>, leaseDuration: int)

  // A client call returns an error, no secret, or a secret.
  datatype Reply = Failed | Absent | Found(secret: Secret)

  datatype Write = Write(path: string, payload: Data)

  /** Everything outside the program.  What a read or a write is answered may depend on all the
      writes issued before, so the store is a function of the write log. */
  datatype World = World(
    read: (seq<Write>, string, string) -> Reply,       // log, path, version
    write: (seq<Write>, Write) -> Reply,               // log, the new write
    renew: (string, Secret) -> bool,                   // lease renewal could be set up
    parseJson: string -> Option<Data>,                 // json.Unmarshal into a map
    toText: Value -> Option<string>,                   // cast.ToStringE
    toMap: Value -> Data,                              // cast.ToStringMap
    render: (string, Data) -> Option<string>,          // Go template with Sprig
    token: string)                                     // the client token

  datatype Config = Config(ignoreMissing: bool, daemon: bool)

  // What a read names: a path, and a version or other argument.
  datatype Place = Place(path: string, argument: string)

  // A fixed store: path and version determine the answer.
  type Reader = (string, string) -> Reply

  // After these writes the store answers like `rd`, as far as these places go.
  predicate Serves(w: World, log: seq<Write>, rd: Reader, at: set<Place>) {
    forall p | p in at :: w.read(log, p.path, p.argument) == rd(p.path, p.argument)
  }

  // The log has grown by some of these writes.
  predicate Extends(log: seq<Write>, base: seq<Write>, own: set<Write>) {
    base <= log && forall k | |base| <= k < |log| :: log[k] in own
  }

  // None of these writes changes what the places answer.
  ghost predicate Steady(w: World, rd: Reader, base: seq<Write>, own: set<Write>, at: set<Place>) {
    forall log | Extends(log, base, own) :: Serves(w, log, rd, at)
  }

  datatype Fetched = Fault | NoData | Got(data: Data)

  // The part of readVaultPath after the call: what is taken out of the secret.
  function Contents(w: World, secret: Secret): Fetched {
    match secret.data
    case None => NoData
    case Some(fields) =>
      if "data" !in fields then Got(fields)
      else if "metadata" !in fields || !fields["metadata"].Object? then Fault
      else Got(w.toMap(fields["data"]))
  }

  predicate Leased(cfg: Config, reply: Reply) {
    cfg.daemon && reply.Found? && reply.secret.leaseDuration > 0
  }

  function Taken(w: World, cfg: Config, path: string, reply: Reply): Fetched {
    match reply
    case Failed => Fault
    case Absent => NoData
    case Found(secret) =>
      if Leased(cfg, reply) && !w.renew(path, secret) then Fault else Contents(w, secret)
  }
}
