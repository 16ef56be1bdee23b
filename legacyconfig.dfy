/** `lib/config.js`: the first configuration normaliser, which rewrites the caller's object in
    place. */
module LegacyConfig {
  import opened Wrappers
  import opened Seqs
  import FileTools

  /** `config.defaults` as given: each setting may be missing. */
  datatype Defaults = Defaults(port: Option<int>, host: Option<string>, mode: Option<string>)

  /** A handler's `methods`: missing, a single value, or an array. */
  datatype Methods = Absent | Scalar(value: string) | ArrayOf(values: seq<string>)

  /** One entry of `config.handlers`, before or after normalisation. */
  datatype HandlerEntry = HandlerEntry(filename: Option<string>, alias: Option<string>, methods: Methods)

  /** What reading `port` of an undefined `config.defaults` throws. */
  const DefaultsTypeError: string := "TypeError: Cannot read properties of undefined (reading 'port')"
  const FilenameRequired: string := "configuration parsing error: filename is required"
  const AliasRequired: string := "configuration parsing error: alias is required in strict mode"

  /** `{port: port || 8080, host: host || "127.0.0.0.1", mode: mode || "strict"}`; a port of 0 is
      falsy. */
  function NormaliseDefaults(d: Defaults): (n: Defaults)
    ensures n.port.Some? && n.host.Some? && n.mode.Some?
    ensures n.port.value == (if d.port.Some? && d.port.value != 0 then d.port.value else 8080)
    ensures n.host.value == FileTools.Or(d.host, "127.0.0.0.1")
    ensures n.mode.value == FileTools.Or(d.mode, "strict")
  {
    Defaults(Some(if d.port.Some? && d.port.value != 0 then d.port.value else 8080),
             Some(FileTools.Or(d.host, "127.0.0.0.1")),
             Some(FileTools.Or(d.mode, "strict")))
  }

  /** `((hconf.methods || []) instanceof Array) ? (hconf.methods || ["*"]) : [hconf.methods]`:
      a falsy value becomes ["*"], an array (even an empty one) is kept, anything else is
      wrapped. */
  function NormaliseMethods(m: Methods): (r: seq<string>)
    ensures m.ArrayOf? ==> r == m.values
    ensures m.Scalar? && m.value != "" ==> r == [m.value]
    ensures m.Absent? || m == Scalar("") ==> r == ["*"]
  {
    match m
    case Absent => ["*"]
    case Scalar(v) => if v == "" then ["*"] else [v]
    case ArrayOf(vs) => vs
  }

  /** The callback of `config.handlers.map`, under the already normalised mode. */
  function NormaliseHandler(mode: string, h: HandlerEntry): (r: Result<HandlerEntry, string>)
    ensures r == Failure(FilenameRequired) <==> !FileTools.Truthy(h.filename)
    ensures r == Failure(AliasRequired) <==> FileTools.Truthy(h.filename) && !FileTools.Truthy(h.alias) && mode == "strict"
    ensures r.Success? ==> r.value == HandlerEntry(h.filename, h.alias, ArrayOf(NormaliseMethods(h.methods)))
  {
    if !FileTools.Truthy(h.filename) then Failure(FilenameRequired)
    else if !FileTools.Truthy(h.alias) && mode == "strict" then Failure(AliasRequired)
    else Success(HandlerEntry(h.filename, h.alias, ArrayOf(NormaliseMethods(h.methods))))
  }

  /** `NormaliseHandler` as a map callback. */
  function Normaliser(mode: string): HandlerEntry -> Result<HandlerEntry, string>
  {
    (h: HandlerEntry) => NormaliseHandler(mode, h)
  }

  /** `(config.handlers || []).map(...)`: the first throwing entry decides. */
  function NormaliseHandlers(mode: string, hs: Option<seq<HandlerEntry>>): Result<seq<HandlerEntry>, string>
  {
    MapResult(hs.GetOr([]), Normaliser(mode))
  }

  /** Normalised handlers keep the length and order of the input; each keeps its filename and
      alias and gets an array of methods. */
  lemma NormaliseHandlersShape(mode: string, hs: seq<HandlerEntry>)
    ensures NormaliseHandlers(mode, Some(hs)).Success? <==>
      forall i :: 0 <= i < |hs| ==> FileTools.Truthy(hs[i].filename) && (FileTools.Truthy(hs[i].alias) || mode != "strict")
    ensures NormaliseHandlers(mode, Some(hs)).Success? ==>
      var out := NormaliseHandlers(mode, Some(hs)).value;
      && |out| == |hs|
      && forall i :: 0 <= i < |hs| ==> out[i].filename == hs[i].filename && out[i].alias == hs[i].alias
                                       && out[i].methods == ArrayOf(NormaliseMethods(hs[i].methods))
  {
  }

  /** Normalising again changes nothing: the normalised object is a fixed point. */
  lemma NormaliseIsIdempotent(d: Defaults, hs: seq<HandlerEntry>)
    ensures NormaliseDefaults(NormaliseDefaults(d)) == NormaliseDefaults(d)
    ensures var mode := NormaliseDefaults(d).mode.value;
      NormaliseHandlers(mode, Some(hs)).Success? ==>
        NormaliseHandlers(mode, Some(NormaliseHandlers(mode, Some(hs)).value)) == NormaliseHandlers(mode, Some(hs))
  {
    var mode := NormaliseDefaults(d).mode.value;
    assert FileTools.Or(Some(mode), "strict") == mode;
    var r := NormaliseHandlers(mode, Some(hs));
    if r.Success? {
      var again := NormaliseHandlers(mode, Some(r.value));
      assert again.Success?;
      assert again.value == r.value;
    }
  }

  /** The configuration object the caller passes in and gets back. */
  class ConfigObject {
    var defaults: Option<Defaults>
    var handlers: Option<seq<HandlerEntry>>

    constructor (defaults: Option<Defaults>, handlers: Option<seq<HandlerEntry>>)
      ensures this.defaults == defaults && this.handlers == handlers
    {
      this.defaults := defaults;
      this.handlers := handlers;
    }

    /** `parseConfiguration(config)`: `defaults` is replaced first, so a handler entry that
        throws leaves the new defaults and the old handlers behind. On success the same object
        is returned. */
    method ParseConfiguration() returns (r: Result<ConfigObject, string>)
      modifies this
      ensures old(defaults).None? ==>
        r == Failure(DefaultsTypeError) && defaults == old(defaults) && handlers == old(handlers)
      ensures old(defaults).Some? ==> defaults == Some(NormaliseDefaults(old(defaults).value))
      ensures old(defaults).Some? ==>
        var normalised := NormaliseHandlers(defaults.value.mode.value, old(handlers));
        && (normalised.Success? ==> r == Success(this) && handlers == Some(normalised.value))
        && (normalised.Failure? ==> r == Failure(normalised.error) && handlers == old(handlers))
    {
      if defaults.None? {
        return Failure(DefaultsTypeError);
      }
      defaults := Some(NormaliseDefaults(defaults.value));
      var normalised := NormaliseHandlers(defaults.value.mode.value, handlers);
      if normalised.Failure? {
        return Failure(normalised.error);
      }
      handlers := Some(normalised.value);
      return Success(this);
    }
  }

  /** Unlike the typed parser, an absent mode counts as strict: an entry without an alias
      throws. */
  lemma AbsentModeRequiresAlias(d: Defaults, h: HandlerEntry)
    requires d.mode.None? && FileTools.Truthy(h.filename) && !FileTools.Truthy(h.alias)
    ensures NormaliseHandlers(NormaliseDefaults(d).mode.value, Some([h])) == Failure(AliasRequired)
  {
    assert Normaliser(NormaliseDefaults(d).mode.value)([h][0]) == Failure(AliasRequired);
  }
}
