/** Messages of the tray/daemon socket and the values they carry. */
module Protocol {
  import opened Basics
  import opened Framing

  const SUPPORTED_VERSION := 1

  datatype RecentFile = RecentFile(filename: string, rule: string, action: string, dryRun: bool, time: string)

  datatype RuleInfo = RuleInfo(name: string, actionType: string)

  /** The snapshot the daemon pushes to its clients. */
  datatype AppState = AppState(
    status: string,
    processed: int,
    dryRun: bool,
    configPath: string,
    rules: seq<RuleInfo>,
    version: string,
    recentFiles: seq<RecentFile>)

  datatype Message =
    | Hello(protocolVersion: int)
    | Snapshot(state: AppState)
    | Unknown

  /** JSON on both sides. Only this much of it matters: messages survive, newlines are escaped. */
  datatype Codec = Codec(encode: Message -> Bytes, decode: Bytes -> Option<Message>) {
    ghost predicate Valid() {
      forall m: Message :: !m.Unknown? ==>
        NewlineFree(encode(m)) && encode(m) != [] && decode(encode(m)) == Some(m)
    }
  }
}
