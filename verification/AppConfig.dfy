/**
  The database-driven app configuration: the key/value rows and the administrator's changes to them, the grouped
  public payload with its version, and the Redis copy of that payload.

  The version stands for the hash of the canonical text of its keys and values: two versions here are equal exactly
  when the hashed texts are.
 */
module AppConfig {
  import opened Common

  datatype ValueType = STRING | INTEGER | FLOAT | BOOLEAN | JSON
  datatype Category = BRANDING | APP | FEATURES | LIMITS | PRICING | VERSIONS | LEGAL | SUPPORT

  /** A JSON value; an object or an array is its canonical text. */
  datatype Json = Null | Text(s: string) | Integer(i: int) | Float(x: real) | Boolean(b: bool) | Structured(text: string)

  /** A stored key; the part after its first dot names the entry to clients. */
  type Key = s: string | '.' in s witness "app.name"

  datatype Row = Row(key: Key, value: Json, valueType: ValueType, category: Category, isPublic: bool, isActive: bool)

  datatype Error = InvalidKey | KeyExists | InvalidValue | InvalidColor | KeyNotFound

  // ---------- validation ----------

  predicate IsWordChar(c: char) {
    'a' <= c <= 'z' || '0' <= c <= '9' || c == '_'
  }

  /** Two or more words joined by single dots, the first of them starting with a letter. */
  predicate IsDotted(s: string) {
    && s != "" && 'a' <= s[0] <= 'z' && '.' in s
    && (forall i :: 0 <= i < |s| ==> IsWordChar(s[i]) || s[i] == '.')
    && (forall i :: 0 <= i < |s| && s[i] == '.' ==> i + 1 < |s| && s[i + 1] != '.')
  }

  /** The pattern's end anchor also matches before a final line feed. */
  predicate KeyMatches(s: string) {
    IsDotted(s) || (s != "" && s[|s| - 1] == '\n' && IsDotted(s[..|s| - 1]))
  }

  predicate IsHexDigit(c: char) {
    '0' <= c <= '9' || 'a' <= c <= 'f' || 'A' <= c <= 'F'
  }

  predicate IsHexColor(s: string) {
    |s| in {4, 7} && s[0] == '#' && forall i :: 1 <= i < |s| ==> IsHexDigit(s[i])
  }

  predicate ColorMatches(s: string) {
    IsHexColor(s) || (s != "" && s[|s| - 1] == '\n' && IsHexColor(s[..|s| - 1]))
  }

  predicate IsColorKey(key: string) {
    key in {"branding.primary_color", "branding.secondary_color", "branding.background_color",
            "branding.text_color", "branding.accent_color"}
  }

  predicate ValueFits(value: Json, t: ValueType) {
    match t
    case STRING => value.Text?
    case INTEGER => value.Integer?
    case FLOAT => value.Integer? || value.Float?
    case BOOLEAN => value.Boolean?
    case JSON => value.Structured?
  }

  function Validated(key: string, value: Json, t: ValueType): Option<Error> {
    if !ValueFits(value, t) then Some(InvalidValue)
    else if IsColorKey(key) && value.Text? && !ColorMatches(value.s) then Some(InvalidColor)
    else None
  }

  // ---------- the administrator's changes ----------

  function Find(table: seq<Row>, key: string): (r: Option<nat>)
    ensures r.Some? ==> r.value < |table| && table[r.value].key == key
    ensures r.None? ==> forall i :: 0 <= i < |table| ==> table[i].key != key
  {
    if table == [] then None
    else if table[|table| - 1].key == key then Some(|table| - 1)
    else Find(table[..|table| - 1], key)
  }

  datatype Change =
    | Create(key: string, value: Json, valueType: ValueType, category: Category, isPublic: bool, isActive: bool)
    | Update(key: string, newValue: Option<Json>, newCategory: Option<Category>, newPublic: Option<bool>, newActive: Option<bool>)
    | Deactivate(key: string)

  function Updated(row: Row, c: Change): Row
    requires c.Update?
  {
    row.(value := c.newValue.GetOr(row.value), category := c.newCategory.GetOr(row.category),
         isPublic := c.newPublic.GetOr(row.isPublic), isActive := c.newActive.GetOr(row.isActive))
  }

  /** The table after a change, or why the change is refused. */
  function Apply(table: seq<Row>, c: Change): Result<seq<Row>, Error> {
    match c
    case Create(key, value, valueType, category, isPublic, isActive) =>
      if !KeyMatches(key) then Err(InvalidKey)
      else if Find(table, key).Some? then Err(KeyExists)
      else if Validated(key, value, valueType).Some? then Err(Validated(key, value, valueType).value)
      else Ok(table + [Row(key, value, valueType, category, isPublic, isActive)])
    case Update(key, newValue, _, _, _) =>
      var found := Find(table, key);
      if found.None? then Err(KeyNotFound)
      else
        var row := table[found.value];
        if newValue.Some? && Validated(key, newValue.value, row.valueType).Some? then
          Err(Validated(key, newValue.value, row.valueType).value)
        else Ok(table[found.value := Updated(row, c)])
    case Deactivate(key) =>
      var found := Find(table, key);
      if found.None? then Err(KeyNotFound) else Ok(table[found.value := table[found.value].(isActive := false)])
  }

  // ---------- the public payload ----------

  function Rank(c: Category): nat {
    match c
    case APP => 0 case BRANDING => 1 case FEATURES => 2 case LEGAL => 3
    case LIMITS => 4 case PRICING => 5 case SUPPORT => 6 case VERSIONS => 7
  }

  predicate Less(a: string, b: string) {
    b != "" && (a == "" || a[0] < b[0] || (a[0] == b[0] && Less(a[1..], b[1..])))
  }

  /** The listing's order: by category, then by key. */
  predicate Before(a: Row, b: Row) {
    Rank(a.category) < Rank(b.category) || (a.category == b.category && Less(a.key, b.key))
  }

  predicate Visible(row: Row) {
    row.isPublic && row.isActive
  }

  function Insert(row: Row, list: seq<Row>): seq<Row> {
    if list == [] || !Before(row, list[|list| - 1]) then list + [row]
    else Insert(row, list[..|list| - 1]) + [list[|list| - 1]]
  }

  /** The public, active rows in the order the query returns them. */
  function Listing(table: seq<Row>): seq<Row> {
    if table == [] then []
    else
      var rest := Listing(table[..|table| - 1]);
      if Visible(table[|table| - 1]) then Insert(table[|table| - 1], rest) else rest
  }

  function AfterDot(s: string): string
    requires '.' in s
  {
    if s[0] == '.' then s[1..] else AfterDot(s[1..])
  }

  function GroupName(c: Category): string {
    match c
    case BRANDING => "branding" case APP => "app" case FEATURES => "features" case LIMITS => "limits"
    case PRICING => "pricing" case VERSIONS => "versions" case LEGAL => "legal" case SUPPORT => "support"
  }

  function PublicName(key: Key): string {
    var sub := AfterDot(key);
    if "features." <= key then (if "enable_" <= sub then sub[7..] else sub)
    else if key == "app.support_email" then "email"
    else if key == "app.support_phone" then "phone"
    else sub
  }

  type Groups = map<string, map<string, Json>>

  /** A group's entries, of which an absent group has none. */
  function Entries(data: Groups, group: string): map<string, Json> {
    if group in data then data[group] else map[]
  }

  function Grouped(list: seq<Row>): Groups {
    if list == [] then map[]
    else
      var row := list[|list| - 1];
      var data := Grouped(list[..|list| - 1]);
      data[GroupName(row.category) := Entries(data, GroupName(row.category))[PublicName(row.key) := row.value]]
  }

  type Version = map<Key, Json>

  function VersionOf(list: seq<Row>): Version {
    if list == [] then map[] else VersionOf(list[..|list| - 1])[list[|list| - 1].key := list[|list| - 1].value]
  }

  datatype Payload = Payload(data: Groups, version: Version)

  function PayloadOf(list: seq<Row>): Payload {
    Payload(Grouped(list), VersionOf(list))
  }

  /** What a fresh read of the table gives. */
  function Current(table: seq<Row>): Payload {
    PayloadOf(Listing(table))
  }

  // ---------- the cache, step by step ----------

  const TTL: nat := 900  // seconds

  datatype Entry = Entry(payload: Payload, expiresAt: nat)

  /** A public request that missed the cache: it is about to query, or it holds the rows it read. */
  datatype Phase = Missed | Listed(list: seq<Row>)

  datatype State = State(table: seq<Row>, cache: Option<Entry>, phases: map<nat, Phase>)

  /** The atomic actions; `up` says whether Redis carried out the command. */
  datatype Action =
    | Get(req: nat, up: bool)
    | List(req: nat)
    | Put(req: nat, up: bool)
    | Invalidate(up: bool)
    | Commit(change: Change)

  datatype Event = Event(at: nat, action: Action)

  function Start(table: seq<Row>): State {
    State(table, None, map[])
  }

  function CacheGet(cache: Option<Entry>, at: nat, up: bool): Option<Payload> {
    if up && cache.Some? && at < cache.value.expiresAt then Some(cache.value.payload) else None
  }

  function Step(s: State, e: Event): State {
    match e.action
    case Get(req, up) =>
      if req in s.phases || CacheGet(s.cache, e.at, up).Some? then s else s.(phases := s.phases[req := Missed])
    case List(req) =>
      if req in s.phases && s.phases[req].Missed? then s.(phases := s.phases[req := Listed(Listing(s.table))]) else s
    case Put(req, up) =>
      if req in s.phases && s.phases[req].Listed? then
        State(s.table, if up then Some(Entry(PayloadOf(s.phases[req].list), e.at + TTL)) else s.cache, s.phases - {req})
      else s
    case Invalidate(up) => if up then s.(cache := None) else s
    case Commit(change) =>
      var applied := Apply(s.table, change);
      if applied.Ok? then s.(table := applied.value) else s
  }

  /** The payload an action hands to its client, if it ends a request. */
  function Answer(s: State, e: Event): Option<Payload> {
    match e.action
    case Get(req, up) => if req in s.phases then None else CacheGet(s.cache, e.at, up)
    case Put(req, _) => if req in s.phases && s.phases[req].Listed? then Some(PayloadOf(s.phases[req].list)) else None
    case _ => None
  }

  function Run(s: State, run: seq<Event>): State {
    if run == [] then s else Step(Run(s, run[..|run| - 1]), run[|run| - 1])
  }

  /** A public request from its cache lookup to its cache write, with nothing in between. */
  datatype Fetch = Fetch(req: nat, getAt: nat, listAt: nat, putAt: nat, getUp: bool, putUp: bool)

  function AfterFetch(s: State, f: Fetch): State {
    Step(Step(Step(s, Event(f.getAt, Get(f.req, f.getUp))), Event(f.listAt, List(f.req))), Event(f.putAt, Put(f.req, f.putUp)))
  }

  /** The answer to such a request: the cached payload, or what it read. */
  function FetchAnswer(s: State, f: Fetch): Option<Payload> {
    var hit := Answer(s, Event(f.getAt, Get(f.req, f.getUp)));
    if hit.Some? then hit
    else
      var missed := Step(s, Event(f.getAt, Get(f.req, f.getUp)));
      Answer(Step(missed, Event(f.listAt, List(f.req))), Event(f.putAt, Put(f.req, f.putUp)))
  }
}
