/** The payload directories, and what a SentryPostman does to them. */
module PayloadStore {
  import opened Sequences
  import opened EnvelopeFormat

  datatype File = File(content: seq<byte>, mtime: nat)

  /** Files by name, times in seconds; inFlight are the uploads whose replies are outstanding. */
  datatype Store = Store(now: nat, pending: map<string, File>, sent: map<string, File>, inFlight: set<string>)

  const MONTH: nat := 30 * 24 * 60 * 60

  /** doc["dsn"].toString() of the first line. */
  function DsnOf(c: Codec, content: seq<byte>): string {
    var h := c.fromJson(FirstLine(content));
    if h.Some? && "dsn" in h.value && h.value["dsn"].Text? then h.value["dsn"].text else ""
  }

  predicate TooOld(s: Store, f: File) {
    s.now - f.mtime >= MONTH
  }

  function Remove<T>(m: map<string, T>, name: string): map<string, T> {
    m - {name}
  }

  /** post(): an old file is removed, one without a DSN is discarded, any other is sent off. */
  function Posted(c: Codec, s: Store, name: string): Store
    requires name in s.pending
  {
    var f := s.pending[name];
    if TooOld(s, f) then s.(pending := Remove(s.pending, name))
    else if DsnOf(c, f.content) == "" then s.(pending := Remove(s.pending, name))
    else s.(inFlight := s.inFlight + {name})
  }

  /** The reply's finished signal: a success moves the file over, an error leaves it for the next postman. */
  function Replied(s: Store, name: string, ok: bool): Store {
    var t := s.(inFlight := s.inFlight - {name});
    if ok && name in t.pending then
      t.(pending := Remove(t.pending, name), sent := t.sent[name := t.pending[name]])
    else t
  }

  /** A postbox writes an envelope under a new name (event id and time stamp). */
  function Written(s: Store, name: string, content: seq<byte>): Store {
    s.(pending := s.pending[name := File(content, s.now)])
  }

  /** The files of one directory listing, one after the other. */
  function PostedAll(c: Codec, s: Store, names: seq<string>): Store {
    if names == [] then s
    else
      var t := PostedAll(c, s, names[..|names| - 1]);
      var last := names[|names| - 1];
      if last in t.pending then Posted(c, t, last) else t
  }

  // ---- Histories ----

  datatype Event =
    | Waits(until: nat)
    | Writes(name: string, content: seq<byte>)
    | Posts(name: string)
    | Replies(name: string, ok: bool)
    | PostmanEnds

  /** The directories, and an outside record of every write and every removal with its reason. */
  datatype World = World(s: Store, written: map<string, File>, aged: set<string>, discarded: set<string>)

  const EMPTY := World(Store(0, map[], map[], {}), map[], {}, {})

  /** Names are never reused, a postman visits a file once per run, and replies answer uploads. */
  predicate Possible(w: World, e: Event) {
    match e
    case Waits(until) => until >= w.s.now
    case Writes(name, _) => name !in w.written
    case Posts(name) => name in w.s.pending && name !in w.s.inFlight
    case Replies(name, _) => name in w.s.inFlight
    case PostmanEnds => true
  }

  function React(c: Codec, w: World, e: Event): World
    requires Possible(w, e)
  {
    match e
    case Waits(until) => w.(s := w.s.(now := until))
    case Writes(name, content) =>
      w.(s := Written(w.s, name, content), written := w.written[name := File(content, w.s.now)])
    case Posts(name) =>
      w.(s := Posted(c, w.s, name),
         aged := if TooOld(w.s, w.s.pending[name]) then w.aged + {name} else w.aged,
         discarded := if !TooOld(w.s, w.s.pending[name]) && DsnOf(c, w.s.pending[name].content) == ""
                      then w.discarded + {name} else w.discarded)
    case Replies(name, ok) => w.(s := Replied(w.s, name, ok))
    case PostmanEnds => w.(s := w.s.(inFlight := {}))
  }

  predicate Run(c: Codec, w: World, trace: seq<Event>, v: World)
    decreases |trace|
  {
    if trace == [] then w == v
    else Possible(w, trace[0]) && Run(c, React(c, w, trace[0]), trace[1..], v)
  }
}
