/** The per-query context the pipeline stages read and update. */
module Query {
  import opened Wrappers
  import opened Dns

  datatype CacheKey = CacheKey(name: string, qtype: RecordType)

  class QueryContext {
    var msg: Message
    var key: CacheKey
    var skipCache: bool
    var skipBalance: bool
    var response: Option<Message>
    var action: string
    var group: Option<string>
    var captures: seq<string>
    var originalName: Option<string>

    constructor (msg: Message, key: CacheKey)
      ensures this.msg == msg && this.key == key
      ensures !skipCache && !skipBalance && response.None? && action == ""
      ensures group.None? && captures == [] && originalName.None?
    {
      this.msg, this.key := msg, key;
      skipCache, skipBalance, response, action := false, false, None, "";
      group, captures, originalName := None, [], None;
    }

    /** Redirects the query to `name`: the cache key always, the question when the name parses. */
    method RewriteName(name: string, parsed: Option<Name>)
      modifies this`key, this`msg
      ensures key == old(key).(name := name)
      ensures msg == if parsed.Some? then Asking(old(msg), parsed.value) else old(msg)
    {
      key := key.(name := name);
      if parsed.Some? {
        msg := Asking(msg, parsed.value);
      }
    }
  }

  /** `msg` with its first question asking for `name`. */
  function Asking(msg: Message, name: Name): Message {
    if msg.queries == [] then msg
    else msg.(queries := [msg.queries[0].(name := name)] + msg.queries[1..])
  }
}
