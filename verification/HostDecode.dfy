/** The host's side: validating a kernel response and deciding the fate of its session. */
module HostDecode {
  import opened Prelude
  import opened Text
  import opened Json
  import opened CellJson

  /** `CellOutput`, by output type. */
  datatype CellOutput =
    | StreamOutput(name: Text, text: Text)
    | BundleOutput(kind: BundleKind, data: Json, metadata: Json, count: Option<int>)
    | ErrorOutput(ename: Text, evalue: Text, traceback: seq<Text>)

  datatype CellResult = CellResult(
    ok: bool, outputs: seq<CellOutput>, executionCount: int, timedOut: bool, truncated: bool,
    sessionInvalidated: bool)

  /** Any failed validation, raised as `ValueError`. */
  datatype Malformed = Malformed

  /** `dict.get`; a parsed object keeps the last of equal keys. */
  function Get(entries: seq<Entry>, key: Text): Option<Json> {
    if entries == [] then None
    else if entries[|entries| - 1].key == key then Some(entries[|entries| - 1].value)
    else Get(entries[..|entries| - 1], key)
  }

  function Field(v: Json, key: string): Option<Json>
    requires v.Obj?
  {
    Get(v.entries, Lit(key))
  }

  function TextOf(v: Option<Json>): Option<Text> {
    if v.Some? && v.value.Str? then Some(v.value.s) else None
  }

  /** The texts of a list of strings; `None` if some item is no string. */
  function Texts(items: seq<Json>): Option<seq<Text>> {
    if items == [] then Some([])
    else if !items[0].Str? then None
    else
      match Texts(items[1..])
      case None => None
      case Some(rest) => Some([items[0].s] + rest)
  }

  function DecodeStream(v: Json): Result<CellOutput, Malformed>
    requires v.Obj?
  {
    var name, text := TextOf(Field(v, "name")), TextOf(Field(v, "text"));
    if name.None? || (name.value != Lit("stdout") && name.value != Lit("stderr")) || text.None? then Err(Malformed)
    else Ok(StreamOutput(name.value, text.value))
  }

  function DecodeBundle(kind: BundleKind, v: Json): Result<CellOutput, Malformed>
    requires v.Obj?
  {
    var data, metadata, count := Field(v, "data"), Field(v, "metadata"), Field(v, "execution_count");
    if data.None? || !data.value.Obj? || metadata.None? || !metadata.value.Obj? then Err(Malformed)
    else if count.None? || count.value == Null then Ok(BundleOutput(kind, data.value, metadata.value, None))
    else if !count.value.Int? || count.value.n < 0 then Err(Malformed)
    else Ok(BundleOutput(kind, data.value, metadata.value, Some(count.value.n)))
  }

  function DecodeError(v: Json): Result<CellOutput, Malformed>
    requires v.Obj?
  {
    var ename, evalue, traceback := TextOf(Field(v, "ename")), TextOf(Field(v, "evalue")), Field(v, "traceback");
    if ename.None? || evalue.None? || traceback.None? || !traceback.value.Arr? then Err(Malformed)
    else
      match Texts(traceback.value.items)
      case None => Err(Malformed)
      case Some(lines) => Ok(ErrorOutput(ename.value, evalue.value, lines))
  }

  /** `_cell_output_from_payload`. */
  function DecodeOutput(v: Json): Result<CellOutput, Malformed> {
    if !v.Obj? then Err(Malformed)
    else
      var outputType := Field(v, "output_type");
      if outputType == Some(Str(Lit("stream"))) then DecodeStream(v)
      else if outputType == Some(Str(Lit("execute_result"))) then DecodeBundle(ExecuteResult, v)
      else if outputType == Some(Str(Lit("display_data"))) then DecodeBundle(DisplayData, v)
      else if outputType == Some(Str(Lit("error"))) then DecodeError(v)
      else Err(Malformed)
  }

  function DecodeOutputs(items: seq<Json>): Result<seq<CellOutput>, Malformed> {
    if items == [] then Ok([])
    else
      match DecodeOutput(items[0])
      case Err(e) => Err(e)
      case Ok(first) =>
        match DecodeOutputs(items[1..])
        case Err(e) => Err(e)
        case Ok(rest) => Ok([first] + rest)
  }

  /** `_cell_result_from_payload`. */
  function DecodeResult(v: Json): Result<CellResult, Malformed> {
    if !v.Obj? then Err(Malformed)
    else
      var status, count := Field(v, "status"), Field(v, "execution_count");
      var timedOut, truncated, outputs := Field(v, "timed_out"), Field(v, "truncated"), Field(v, "outputs");
      if status != Some(Str(Lit("ok"))) && status != Some(Str(Lit("error"))) then Err(Malformed)
      else if count.None? || !count.value.Int? || count.value.n < 0 then Err(Malformed)
      else if timedOut.None? || !timedOut.value.Bool? || truncated.None? || !truncated.value.Bool? then Err(Malformed)
      else if outputs.None? || !outputs.value.Arr? then Err(Malformed)
      else
        match DecodeOutputs(outputs.value.items)
        case Err(e) => Err(e)
        case Ok(decoded) =>
          var ok := status == Some(Str(Lit("ok")));
          Ok(CellResult(ok, decoded, count.value.n, timedOut.value.b, truncated.value.b, false))
  }

  // ---------------------------------------------------------------- exec_cell

  const MAX_PAYLOAD_BYTES: nat := 2 * 1024 * 1024

  /** How the Docker exec of a cell ends.  `payload` is the parsed standard output, if it parses. */
  datatype DockerReply =
    | CallTimedOut
    | TransportFailed
    | Exited(code: int, size: nat, payload: Option<Json>)

  function FailedCell(ename: string, timedOut: bool): CellResult {
    CellResult(false, [ErrorOutput(Lit(ename), [], [])], 0, timedOut, false, true)
  }

  /** `exec_cell` once the session lock is held and the session is live.  The texts of transport errors
      are left out.  A result with `sessionInvalidated` has gone through `_invalidate_locked`. */
  function ExecCell(reply: DockerReply): CellResult {
    match reply
    case CallTimedOut => FailedCell("ExecutionTimeout", true)
    case TransportFailed => FailedCell("KernelTransportError", false)
    case Exited(code, size, payload) =>
      if code != 0 || size > MAX_PAYLOAD_BYTES || payload.None? then FailedCell("KernelTransportError", false)
      else
        match DecodeResult(payload.value)
        case Err(_) => FailedCell("KernelTransportError", false)
        case Ok(r) => if r.timedOut then r.(sessionInvalidated := true) else r
  }
}
