/**
  The configuration service as it works on the rows and the cache, each method proved to make the steps that module
  AppConfig specifies.
 */
module AppConfigService {
  import opened Common
  import opened AppConfig

  class Service {
    var table: seq<Row>         // the committed rows
    var draft: seq<Row>         // the request's own view of them
    var cache: Option<Entry>

    constructor (rows: seq<Row>, cached: Option<Entry>)
      ensures table == draft == rows && cache == cached
    {
      table, draft, cache := rows, rows, cached;
    }

    method Group(list: seq<Row>) returns (grouped: Groups)
      ensures grouped == Grouped(list)
    {
      grouped := map[];
      for i := 0 to |list|
        invariant grouped == Grouped(list[..i])
      {
        assert list[..i + 1][..i] == list[..i];
        var group := GroupName(list[i].category);
        if group !in grouped {
          grouped := grouped[group := map[]];
        }
        grouped := grouped[group := grouped[group][PublicName(list[i].key) := list[i].value]];
      }
      assert list[..|list|] == list;
    }

    method ComputeVersion(list: seq<Row>) returns (version: Version)
      ensures version == VersionOf(list)
    {
      version := map[];
      for i := 0 to |list|
        invariant version == VersionOf(list[..i])
      {
        assert list[..i + 1][..i] == list[..i];
        version := version[list[i].key := list[i].value];
      }
      assert list[..|list|] == list;
    }

    /** A whole public request answers, and leaves the cache, as its three steps in a row do. */
    method GetPublic(f: Fetch) returns (payload: Payload)
      modifies this`cache
      ensures var s := State(table, old(cache), map[]);
              FetchAnswer(s, f) == Some(payload) && AfterFetch(s, f) == State(table, cache, map[])
    {
      if f.getUp && cache.Some? && f.getAt < cache.value.expiresAt {
        return cache.value.payload;
      }
      var list := Listing(table);
      var grouped := Group(list);
      var version := ComputeVersion(list);
      payload := Payload(grouped, version);
      ghost var phases: map<nat, Phase> := map[];
      assert phases[f.req := Missed][f.req := Listed(list)] - {f.req} == map[];
      if f.putUp {
        cache := Some(Entry(payload, f.putAt + TTL));
      }
    }

    method InvalidateCache(up: bool)
      modifies this`cache
      ensures cache == if up then None else old(cache)
    {
      if up {
        cache := None;
      }
    }

    method CreateEntry(key: string, value: Json, valueType: ValueType, category: Category, isPublic: bool, isActive: bool, up: bool)
      returns (r: Result<Row, Error>)
      modifies this`draft, this`cache
      ensures match Apply(old(draft), Create(key, value, valueType, category, isPublic, isActive))
              case Ok(rows) => draft == rows && r.Ok? && r.value in rows && r.value.key == key && cache == (if up then None else old(cache))
              case Err(e) => r == Err(e) && draft == old(draft) && cache == old(cache)
    {
      if !KeyMatches(key) { return Err(InvalidKey); }
      if Find(draft, key).Some? { return Err(KeyExists); }
      if !ValueFits(value, valueType) { return Err(InvalidValue); }
      if IsColorKey(key) && value.Text? && !ColorMatches(value.s) { return Err(InvalidColor); }
      var row := Row(key, value, valueType, category, isPublic, isActive);
      draft := draft + [row];
      InvalidateCache(up);
      return Ok(row);
    }

    method UpdateEntry(c: Change, up: bool) returns (r: Result<Row, Error>)
      requires c.Update?
      modifies this`draft, this`cache
      ensures match Apply(old(draft), c)
              case Ok(rows) => draft == rows && r.Ok? && r.value in rows && r.value.key == c.key && cache == (if up then None else old(cache))
              case Err(e) => r == Err(e) && draft == old(draft) && cache == old(cache)
    {
      var found := Find(draft, c.key);
      if found.None? { return Err(KeyNotFound); }
      var row := draft[found.value];
      if c.newValue.Some? {
        var value := c.newValue.value;
        if !ValueFits(value, row.valueType) { return Err(InvalidValue); }
        if IsColorKey(c.key) && value.Text? && !ColorMatches(value.s) { return Err(InvalidColor); }
        row := row.(value := value);
      }
      if c.newCategory.Some? {
        row := row.(category := c.newCategory.value);
      }
      if c.newPublic.Some? {
        row := row.(isPublic := c.newPublic.value);
      }
      if c.newActive.Some? {
        row := row.(isActive := c.newActive.value);
      }
      draft := draft[found.value := row];
      assert draft[found.value] == row;
      InvalidateCache(up);
      return Ok(row);
    }

    method DeactivateEntry(key: string, up: bool) returns (r: Result<Row, Error>)
      modifies this`draft, this`cache
      ensures match Apply(old(draft), Deactivate(key))
              case Ok(rows) => draft == rows && r.Ok? && r.value in rows && !r.value.isActive && cache == (if up then None else old(cache))
              case Err(e) => r == Err(e) && draft == old(draft) && cache == old(cache)
    {
      var found := Find(draft, key);
      if found.None? { return Err(KeyNotFound); }
      draft := draft[found.value := draft[found.value].(isActive := false)];
      assert draft[found.value].key == key;
      InvalidateCache(up);
      return Ok(draft[found.value]);
    }

    /** The route's commit, which comes after the service has invalidated the cache. */
    method CommitDraft()
      modifies this`table
      ensures table == draft
    {
      table := draft;
    }
  }
}
