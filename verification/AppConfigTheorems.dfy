/** What the public configuration says about the rows, and which changes of it the version can and cannot detect. */
module AppConfigTheorems {
  import opened Common
  import opened AppConfig

  // ---------- the table ----------

  ghost predicate KeysDistinct(table: seq<Row>) {
    forall i, j :: 0 <= i < j < |table| ==> table[i].key != table[j].key
  }

  ghost predicate ValuesValid(table: seq<Row>) {
    forall i :: 0 <= i < |table| ==> Validated(table[i].key, table[i].value, table[i].valueType).None?
  }

  /** Rows are only ever added, and a row keeps its key and its value type. */
  ghost predicate Extends(before: seq<Row>, after: seq<Row>) {
    |before| <= |after| && forall i :: 0 <= i < |before| ==> after[i].key == before[i].key && after[i].valueType == before[i].valueType
  }

  lemma RewriteKeepsTable(table: seq<Row>, i: nat, row: Row)
    requires KeysDistinct(table) && ValuesValid(table) && i < |table|
    requires row.key == table[i].key && row.valueType == table[i].valueType && Validated(row.key, row.value, row.valueType).None?
    ensures KeysDistinct(table[i := row]) && ValuesValid(table[i := row]) && Extends(table, table[i := row])
  {
  }

  lemma ApplyKeepsTable(table: seq<Row>, c: Change)
    requires KeysDistinct(table) && ValuesValid(table) && Apply(table, c).Ok?
    ensures KeysDistinct(Apply(table, c).value) && ValuesValid(Apply(table, c).value) && Extends(table, Apply(table, c).value)
  {
    var i := Find(table, c.key);
    if i.Some? {
      assert Validated(table[i.value].key, table[i.value].value, table[i.value].valueType).None?;
      var row := if c.Update? then Updated(table[i.value], c) else table[i.value].(isActive := false);
      if !c.Create? {
        RewriteKeepsTable(table, i.value, row);
      }
    }
  }

  /** In every run, stored keys are distinct and values fit their type, and neither keys nor types ever change. */
  lemma {:induction false} RunKeepsTable(s: State, run: seq<Event>)
    requires KeysDistinct(s.table) && ValuesValid(s.table)
    ensures KeysDistinct(Run(s, run).table) && ValuesValid(Run(s, run).table) && Extends(s.table, Run(s, run).table)
  {
    if run != [] {
      var last := |run| - 1;
      RunKeepsTable(s, run[..last]);
      var before := Run(s, run[..last]).table;
      if run[last].action.Commit? && Apply(before, run[last].action.change).Ok? {
        ApplyKeepsTable(before, run[last].action.change);
      }
    }
  }

  // ---------- the listing ----------

  lemma {:induction false} InsertAdds(row: Row, list: seq<Row>)
    ensures multiset(Insert(row, list)) == multiset(list) + multiset{row}
  {
    if list != [] && Before(row, list[|list| - 1]) {
      InsertAdds(row, list[..|list| - 1]);
      assert list == list[..|list| - 1] + [list[|list| - 1]];
    }
  }

  /** The listing holds the visible rows, each as often as the table does, and no other. */
  lemma {:induction false} ListingIsVisibleRows(table: seq<Row>, row: Row)
    ensures multiset(Listing(table))[row] == if Visible(row) then multiset(table)[row] else 0
  {
    if table != [] {
      var last := |table| - 1;
      ListingIsVisibleRows(table[..last], row);
      assert table == table[..last] + [table[last]];
      InsertAdds(table[last], Listing(table[..last]));
    } else {
      assert Listing(table) == [];
    }
  }

  lemma ListingMembers(table: seq<Row>, row: Row)
    ensures row in Listing(table) <==> row in table && Visible(row)
  {
    ListingIsVisibleRows(table, row);
    assert row in Listing(table) <==> row in multiset(Listing(table));
    assert row in table <==> row in multiset(table);
  }

  lemma {:induction false} LessIsAsymmetric(a: string, b: string)
    requires Less(a, b)
    ensures !Less(b, a) && a != b
  {
    if a != "" && a[0] == b[0] {
      LessIsAsymmetric(a[1..], b[1..]);
    }
  }

  lemma {:induction false} LessSplits(a: string, b: string, c: string)
    requires Less(a, c)
    ensures Less(a, b) || Less(b, c)
  {
    if a != "" && b != "" && a[0] == b[0] == c[0] {
      LessSplits(a[1..], b[1..], c[1..]);
    }
  }

  lemma {:induction false} LessIsTotal(a: string, b: string)
    requires a != b
    ensures Less(a, b) || Less(b, a)
  {
    if a != "" && b != "" && a[0] == b[0] {
      assert a == [a[0]] + a[1..] && b == [b[0]] + b[1..];
      LessIsTotal(a[1..], b[1..]);
    }
  }

  lemma RankNames(a: Category, b: Category)
    ensures Rank(a) == Rank(b) <==> a == b
  {
  }

  lemma BeforeSplits(a: Row, b: Row, c: Row)
    requires Before(a, c)
    ensures Before(a, b) || Before(b, c)
  {
    RankNames(a.category, b.category);
    RankNames(b.category, c.category);
    if a.category == b.category == c.category {
      LessSplits(a.key, b.key, c.key);
    }
  }

  ghost predicate Sorted(list: seq<Row>) {
    forall i, j :: 0 <= i < j < |list| ==> !Before(list[j], list[i])
  }

  lemma {:induction false} InsertSorts(row: Row, list: seq<Row>)
    requires Sorted(list)
    ensures Sorted(Insert(row, list))
  {
    if list == [] {
    } else if !Before(row, list[|list| - 1]) {
      forall i | 0 <= i < |list| ensures !Before(row, list[i]) {
        if Before(row, list[i]) {
          BeforeSplits(row, list[|list| - 1], list[i]);
        }
      }
    } else {
      var init, last := list[..|list| - 1], list[|list| - 1];
      InsertSorts(row, init);
      InsertAdds(row, init);
      if Before(last, row) {
        NoCycle(row, last);
      }
      forall i | 0 <= i < |Insert(row, init)| ensures !Before(last, Insert(row, init)[i]) {
        assert Insert(row, init)[i] in multiset(Insert(row, init));
        assert Insert(row, init)[i] == row || Insert(row, init)[i] in init;
      }
    }
  }

  lemma NoCycle(a: Row, b: Row)
    requires Before(a, b)
    ensures !Before(b, a)
  {
    if a.category == b.category {
      LessIsAsymmetric(a.key, b.key);
    }
  }

  lemma {:induction false} ListingIsSorted(table: seq<Row>)
    ensures Sorted(Listing(table))
  {
    if table != [] {
      ListingIsSorted(table[..|table| - 1]);
      InsertSorts(table[|table| - 1], Listing(table[..|table| - 1]));
    }
  }

  // ---------- the grouped payload ----------

  /** The row is served, if at all, under this group and name. */
  predicate PlacedAt(row: Row, group: string, name: string) {
    GroupName(row.category) == group && PublicName(row.key) == name
  }

  predicate SamePlace(a: Row, b: Row) {
    a.category == b.category && PublicName(a.key) == PublicName(b.key)
  }

  lemma GroupNames(a: Category, b: Category)
    ensures GroupName(a) == GroupName(b) <==> a == b
  {
  }

  ghost predicate IsLastAt(list: seq<Row>, i: nat, group: string, name: string) {
    i < |list| && PlacedAt(list[i], group, name) && forall j :: i < j < |list| ==> !PlacedAt(list[j], group, name)
  }

  lemma EntryAdded(data: Groups, g: string, n: string, v: Json, group: string, name: string)
    ensures var entries, before := Entries(data[g := Entries(data, g)[n := v]], group), Entries(data, group);
            if g == group && n == name then name in entries && entries[name] == v
            else (name in entries <==> name in before) && (name in before ==> entries[name] == before[name])
  {
  }

  lemma LastRowEnters(list: seq<Row>, group: string, name: string)
    requires list != []
    ensures var entries, before := Entries(Grouped(list), group), Entries(Grouped(list[..|list| - 1]), group);
            if PlacedAt(list[|list| - 1], group, name) then name in entries && entries[name] == list[|list| - 1].value
            else (name in entries <==> name in before) && (name in before ==> entries[name] == before[name])
  {
    var row := list[|list| - 1];
    EntryAdded(Grouped(list[..|list| - 1]), GroupName(row.category), PublicName(row.key), row.value, group, name);
  }

  /** The last row placed at an entry gives it its value. */
  lemma {:induction false} LastRowWins(list: seq<Row>, i: nat, group: string, name: string)
    requires IsLastAt(list, i, group, name)
    ensures name in Entries(Grouped(list), group) && Entries(Grouped(list), group)[name] == list[i].value
  {
    LastRowEnters(list, group, name);
    if i < |list| - 1 {
      LastRowWins(list[..|list| - 1], i, group, name);
    }
  }

  /** An entry is present only if some row is placed there. */
  lemma {:induction false} EntryHasRow(list: seq<Row>, group: string, name: string) returns (i: nat)
    requires name in Entries(Grouped(list), group)
    ensures i < |list| && PlacedAt(list[i], group, name)
  {
    LastRowEnters(list, group, name);
    i := |list| - 1;
    if !PlacedAt(list[i], group, name) {
      i := EntryHasRow(list[..i], group, name);
    }
  }

  /** Of the visible rows placed at an entry, the one with the greatest key. */
  ghost predicate Wins(table: seq<Row>, row: Row, group: string, name: string) {
    && row in table && Visible(row) && PlacedAt(row, group, name)
    && forall other :: other in table && Visible(other) && PlacedAt(other, group, name) ==> !Less(row.key, other.key)
  }

  lemma LastWins(table: seq<Row>, i: nat, group: string, name: string)
    requires IsLastAt(Listing(table), i, group, name)
    ensures Wins(table, Listing(table)[i], group, name)
  {
    var list := Listing(table);
    ListingIsSorted(table);
    ListingMembers(table, list[i]);
    forall other | other in table && Visible(other) && PlacedAt(other, group, name) ensures !Less(list[i].key, other.key) {
      ListingMembers(table, other);
      var j :| 0 <= j < |list| && list[j] == other;
      GroupNames(other.category, list[i].category);
      if j == i && Less(other.key, other.key) {
        LessIsAsymmetric(other.key, other.key);
      }
    }
  }

  lemma SomeRowIsLast(list: seq<Row>, k: nat, group: string, name: string) returns (i: nat)
    requires k < |list| && PlacedAt(list[k], group, name)
    ensures IsLastAt(list, i, group, name)
    decreases |list| - k
  {
    if j :| k < j < |list| && PlacedAt(list[j], group, name) {
      i := SomeRowIsLast(list, j, group, name);
    } else {
      i := k;
    }
  }

  /** The served entries, read off the table: an entry is there just when some visible row has its group and name. */
  lemma EntryHasWinner(table: seq<Row>, group: string, name: string)
    ensures var entries := Entries(Current(table).data, group);
            && (name in entries <==> exists row :: row in table && Visible(row) && PlacedAt(row, group, name))
            && (name in entries ==> exists row :: Wins(table, row, group, name) && row.value == entries[name])
  {
    var list := Listing(table);
    if name in Entries(Current(table).data, group) {
      var k := EntryHasRow(list, group, name);
      var i := SomeRowIsLast(list, k, group, name);
      LastRowWins(list, i, group, name);
      LastWins(table, i, group, name);
      assert Wins(table, list[i], group, name);
    }
    if row :| row in table && Visible(row) && PlacedAt(row, group, name) {
      ListingMembers(table, row);
      var k :| 0 <= k < |list| && list[k] == row;
      var i := SomeRowIsLast(list, k, group, name);
      LastRowWins(list, i, group, name);
    }
  }

  lemma WinnerIsUnique(table: seq<Row>, a: Row, b: Row, group: string, name: string)
    requires KeysDistinct(table) && Wins(table, a, group, name) && Wins(table, b, group, name)
    ensures a == b
  {
    if a.key != b.key {
      LessIsTotal(a.key, b.key);
    }
  }

  /** A row's value is what clients see at its group and name. */
  ghost predicate Serves(table: seq<Row>, row: Row) {
    var entries := Entries(Current(table).data, GroupName(row.category));
    PublicName(row.key) in entries && entries[PublicName(row.key)] == row.value
  }

  ghost predicate NoClash(table: seq<Row>) {
    forall a, b :: a in table && b in table && Visible(a) && Visible(b) && SamePlace(a, b) ==> a.value == b.value
  }

  lemma ServedUnlessClash(table: seq<Row>, row: Row)
    requires row in table && Visible(row) && NoClash(table)
    ensures Serves(table, row)
  {
    var group, name := GroupName(row.category), PublicName(row.key);
    EntryHasWinner(table, group, name);
    assert PlacedAt(row, group, name);
    var w :| Wins(table, w, group, name) && w.value == Entries(Current(table).data, group)[name];
    GroupNames(w.category, row.category);
    assert SamePlace(w, row);
  }

  /** Every public, active row reaches the clients exactly when no two of them claim one entry for different values. */
  lemma EverythingServedExactly(table: seq<Row>)
    ensures (forall row :: row in table && Visible(row) ==> Serves(table, row)) <==> NoClash(table)
  {
    if NoClash(table) {
      forall row | row in table && Visible(row) ensures Serves(table, row) {
        ServedUnlessClash(table, row);
      }
    } else {
      var a, b :| a in table && b in table && Visible(a) && Visible(b) && SamePlace(a, b) && a.value != b.value;
      assert !Serves(table, a) || !Serves(table, b);
    }
  }

  /** Private and inactive rows never show: what is served at an entry is the value of a public, active row placed there. */
  lemma NothingHiddenIsServed(table: seq<Row>, group: string, name: string)
    requires name in Entries(Current(table).data, group)
    ensures exists row :: row in table && row.isPublic && row.isActive && PlacedAt(row, group, name)
                            && row.value == Entries(Current(table).data, group)[name]
  {
    EntryHasWinner(table, group, name);
  }

  /**
    A feature's key with and without its prefix are both acceptable, and both name one entry: when the two rows are
    visible in one category with different values, one of them is not served.
   */
  lemma FeaturePrefixesClash(table: seq<Row>, word: string, on: Row, off: Row)
    requires word != "" && (forall i :: 0 <= i < |word| ==> IsWordChar(word[i])) && !("enable_" <= word)
    requires on in table && off in table && Visible(on) && Visible(off)
    requires on.key == "features." + word && off.key == "features." + ("enable_" + word)
    requires on.category == off.category && on.value != off.value
    ensures KeyMatches(on.key) && KeyMatches(off.key)
    ensures exists row :: row in table && Visible(row) && !Serves(table, row)
  {
    FeatureKeyMatches(word);
    FeatureKeyMatches("enable_" + word);
    AfterFeatures(word);
    AfterFeatures("enable_" + word);
    assert ("enable_" + word)[7..] == word;
    assert SamePlace(on, off);
    EverythingServedExactly(table);
  }

  function FeatureSwitch(word: string, on: bool): Change {
    Create("features." + word, Boolean(on), BOOLEAN, FEATURES, true, true)
  }

  /** A switch for a new feature is accepted. */
  lemma FeatureIsAccepted(table: seq<Row>, word: string, on: bool)
    requires word != "" && forall i :: 0 <= i < |word| ==> IsWordChar(word[i])
    requires Find(table, "features." + word).None?
    ensures KeyMatches("features." + word)
    ensures Apply(table, FeatureSwitch(word, on)) == Ok(table + [Row("features." + word, Boolean(on), BOOLEAN, FEATURES, true, true)])
  {
    FeatureKeyMatches(word);
  }

  /** Two accepted creates, from no entries at all, reach a table in which a public, active row is not served. */
  lemma ClashIsReached(word: string, on: bool)
    requires word != "" && (forall i :: 0 <= i < |word| ==> IsWordChar(word[i])) && !("enable_" <= word)
    ensures var first := Apply([], FeatureSwitch(word, on));
            && first.Ok?
            && var second := Apply(first.value, FeatureSwitch("enable_" + word, !on));
               second.Ok? && exists row :: row in second.value && Visible(row) && !Serves(second.value, row)
  {
    FeatureIsAccepted([], word, on);
    FeatureKeyMatches("enable_" + word);
    var row := Row("features." + word, Boolean(on), BOOLEAN, FEATURES, true, true);
    var other := Row("features." + ("enable_" + word), Boolean(!on), BOOLEAN, FEATURES, true, true);
    var first := [row];
    assert [] + [row] == first;
    assert |row.key| != |other.key|;
    FeatureIsAccepted(first, "enable_" + word, !on);
    var table := first + [other];
    assert table[0] == row && table[1] == other;
    FeaturePrefixesClash(table, word, row, other);
  }

  lemma FeatureKeyMatches(word: string)
    requires word != "" && forall i :: 0 <= i < |word| ==> IsWordChar(word[i])
    ensures KeyMatches("features." + word)
  {
    var k := "features." + word;
    assert k[8] == '.' && '.' in k;
    assert forall i :: 9 <= i < |k| ==> k[i] == word[i - 9];
    assert IsDotted(k);
  }

  lemma AfterFeatures(sub: string)
    ensures '.' in "features." + sub && AfterDot("features." + sub) == sub
  {
    var k := "features." + sub;
    assert k[8] == '.';
    AfterFirstDot(k, 8);
    assert k[9..] == sub;
  }

  lemma {:induction false} AfterFirstDot(s: string, k: nat)
    requires k < |s| && s[k] == '.' && forall i :: 0 <= i < k ==> s[i] != '.'
    ensures AfterDot(s) == s[k + 1..]
  {
    if k > 0 {
      AfterFirstDot(s[1..], k - 1);
      assert s[1..][k..] == s[k + 1..];
    }
  }

  // ---------- the version ----------

  lemma {:induction false} VersionOfDistinct(list: seq<Row>, k: Key)
    requires KeysDistinct(list)
    ensures k in VersionOf(list) <==> exists i :: 0 <= i < |list| && list[i].key == k
    ensures forall i :: 0 <= i < |list| && list[i].key == k ==> VersionOf(list)[k] == list[i].value
  {
    if list != [] {
      VersionOfDistinct(list[..|list| - 1], k);
    }
  }

  lemma {:induction false} InsertKeepsDistinct(row: Row, list: seq<Row>)
    requires KeysDistinct(list) && forall i :: 0 <= i < |list| ==> list[i].key != row.key
    ensures KeysDistinct(Insert(row, list))
  {
    if list != [] && Before(row, list[|list| - 1]) {
      var init := list[..|list| - 1];
      InsertKeepsDistinct(row, init);
      InsertAdds(row, init);
      forall i | 0 <= i < |Insert(row, init)| ensures Insert(row, init)[i].key != list[|list| - 1].key {
        assert Insert(row, init)[i] in multiset(Insert(row, init));
        assert Insert(row, init)[i] == row || Insert(row, init)[i] in init;
      }
    }
  }

  lemma {:induction false} ListingKeepsDistinct(table: seq<Row>)
    requires KeysDistinct(table)
    ensures KeysDistinct(Listing(table))
  {
    if table != [] {
      var init, last := table[..|table| - 1], table[|table| - 1];
      ListingKeepsDistinct(init);
      forall i | 0 <= i < |Listing(init)| ensures Listing(init)[i].key != last.key {
        ListingMembers(init, Listing(init)[i]);
      }
      InsertKeepsDistinct(last, Listing(init));
    }
  }

  /** The version stands for the visible keys and their values, whatever the categories. */
  lemma VersionIsVisibleValues(table: seq<Row>, k: Key)
    requires KeysDistinct(table)
    ensures k in Current(table).version <==> exists i :: 0 <= i < |table| && Visible(table[i]) && table[i].key == k
    ensures forall i :: 0 <= i < |table| && Visible(table[i]) && table[i].key == k ==> Current(table).version[k] == table[i].value
  {
    var list := Listing(table);
    ListingKeepsDistinct(table);
    VersionOfDistinct(list, k);
    forall i | 0 <= i < |list| && list[i].key == k
      ensures list[i] in table && Visible(list[i])
    {
      ListingMembers(table, list[i]);
    }
    forall i | 0 <= i < |table| && Visible(table[i]) && table[i].key == k
      ensures k in VersionOf(list) && VersionOf(list)[k] == table[i].value
    {
      ListingMembers(table, table[i]);
      var j :| 0 <= j < |list| && list[j] == table[i];
    }
  }

  /** Every visible row of `a` is, key, value and category, a visible row of `b`. */
  ghost predicate Matched(a: seq<Row>, b: seq<Row>) {
    forall i :: 0 <= i < |a| && Visible(a[i]) ==> MatchedRow(a[i], b)
  }

  ghost predicate MatchedRow(row: Row, b: seq<Row>) {
    exists j :: 0 <= j < |b| && Visible(b[j]) && b[j].key == row.key && b[j].value == row.value && b[j].category == row.category
  }

  /** Two tables that show a key, if both do, in one category. */
  ghost predicate SameCategories(a: seq<Row>, b: seq<Row>) {
    forall i, j :: 0 <= i < |a| && 0 <= j < |b| && Visible(a[i]) && Visible(b[j]) && a[i].key == b[j].key ==> a[i].category == b[j].category
  }

  lemma SameVersionMatches(a: seq<Row>, b: seq<Row>)
    requires KeysDistinct(a) && KeysDistinct(b) && SameCategories(a, b) && Current(a).version == Current(b).version
    ensures Matched(a, b)
  {
    forall i | 0 <= i < |a| && Visible(a[i]) ensures MatchedRow(a[i], b) {
      VersionIsVisibleValues(a, a[i].key);
      VersionIsVisibleValues(b, a[i].key);
      var j :| 0 <= j < |b| && Visible(b[j]) && b[j].key == a[i].key;
    }
  }

  lemma MatchedEntries(a: seq<Row>, b: seq<Row>, group: string, name: string)
    requires KeysDistinct(b) && Matched(a, b) && Matched(b, a)
    requires name in Entries(Current(a).data, group)
    ensures name in Entries(Current(b).data, group) && Entries(Current(a).data, group)[name] == Entries(Current(b).data, group)[name]
  {
    EntryHasWinner(a, group, name);
    EntryHasWinner(b, group, name);
    var r :| Wins(a, r, group, name) && r.value == Entries(Current(a).data, group)[name];
    var w := Match(r, a, b);
    assert PlacedAt(w, group, name);
    var t :| Wins(b, t, group, name) && t.value == Entries(Current(b).data, group)[name];
    MatchedWinners(a, b, r, w, t, group, name);
  }

  lemma Match(r: Row, a: seq<Row>, b: seq<Row>) returns (w: Row)
    requires r in a && Visible(r) && Matched(a, b)
    ensures w in b && Visible(w) && w.key == r.key && w.value == r.value && w.category == r.category
  {
    var i :| 0 <= i < |a| && a[i] == r;
    assert MatchedRow(a[i], b);
    var j :| 0 <= j < |b| && Visible(b[j]) && b[j].key == r.key && b[j].value == r.value && b[j].category == r.category;
    w := b[j];
  }

  lemma MatchedWinners(a: seq<Row>, b: seq<Row>, r: Row, w: Row, t: Row, group: string, name: string)
    requires KeysDistinct(b) && Matched(b, a) && Wins(a, r, group, name) && Wins(b, t, group, name)
    requires w in b && Visible(w) && w.key == r.key && w.value == r.value && w.category == r.category
    ensures t.value == r.value
  {
    var u := Match(t, b, a);
    assert !Less(r.key, u.key) && !Less(t.key, w.key);
    if r.key != t.key {
      LessIsTotal(r.key, t.key);
    }
    assert w == t;
  }

  lemma {:induction false} GroupsAreNonEmpty(list: seq<Row>, group: string)
    requires group in Grouped(list)
    ensures Grouped(list)[group] != map[]
  {
    var row := list[|list| - 1];
    if GroupName(row.category) == group {
      assert PublicName(row.key) in Grouped(list)[group];
    } else {
      GroupsAreNonEmpty(list[..|list| - 1], group);
    }
  }

  lemma SameEntriesSameData(a: seq<Row>, b: seq<Row>)
    requires forall group :: Entries(Current(a).data, group) == Entries(Current(b).data, group)
    ensures Current(a).data == Current(b).data
  {
    var x, y := Current(a).data, Current(b).data;
    forall group ensures group in x <==> group in y {
      assert Entries(x, group) == Entries(y, group);
      if group in x { GroupsAreNonEmpty(Listing(a), group); }
      if group in y { GroupsAreNonEmpty(Listing(b), group); }
    }
    forall group | group in x ensures x[group] == y[group] {
      assert Entries(x, group) == Entries(y, group);
    }
  }

  /** Equal versions mean equal payloads between tables that agree on the categories. */
  lemma VersionFixesData(a: seq<Row>, b: seq<Row>)
    requires KeysDistinct(a) && KeysDistinct(b) && SameCategories(a, b)
    requires Current(a).version == Current(b).version
    ensures Current(a) == Current(b)
  {
    SameVersionMatches(a, b);
    SameVersionMatches(b, a);
    forall group ensures Entries(Current(a).data, group) == Entries(Current(b).data, group) {
      var x, y := Entries(Current(a).data, group), Entries(Current(b).data, group);
      forall name ensures (name in x <==> name in y) && (name in x ==> x[name] == y[name]) {
        if name in x { MatchedEntries(a, b, group, name); }
        if name in y { MatchedEntries(b, a, group, name); }
      }
    }
    SameEntriesSameData(a, b);
  }

  ghost predicate PlacesDistinct(table: seq<Row>) {
    forall i, j :: 0 <= i < j < |table| && Visible(table[i]) && Visible(table[j]) ==> !SamePlace(table[i], table[j])
  }

  /** The row an accepted update rewrites, before and after. */
  ghost predicate Rewrites(table: seq<Row>, c: Change, i: nat) {
    c.Update? && Apply(table, c).Ok? && Find(table, c.key) == Some(i)
  }

  /** An update changes the version exactly when it changes the row's visibility, or its value while it is visible. */
  lemma UpdateShowsInVersion(table: seq<Row>, c: Change, i: nat)
    requires KeysDistinct(table) && Rewrites(table, c, i)
    ensures var row, after := table[i], Updated(table[i], c);
            Current(Apply(table, c).value).version == Current(table).version
            <==> Visible(row) == Visible(after) && (Visible(row) ==> row.value == after.value)
  {
    VersionAfterRewrite(table, i, Updated(table[i], c));
  }

  lemma VersionAfterRewrite(table: seq<Row>, i: nat, row: Row)
    requires KeysDistinct(table) && i < |table| && row.key == table[i].key
    ensures Current(table[i := row]).version == Current(table).version
            <==> Visible(table[i]) == Visible(row) && (Visible(row) ==> table[i].value == row.value)
  {
    var t' := table[i := row];
    var before, after := Current(table).version, Current(t').version;
    forall k: Key | k != row.key
      ensures (k in after <==> k in before) && (k in before ==> after[k] == before[k])
    {
      OtherKeysStay(table, i, row, k);
    }
    OwnVersion(table, i);
    OwnVersion(t', i);
  }

  lemma OwnVersion(table: seq<Row>, i: nat)
    requires KeysDistinct(table) && i < |table|
    ensures var version := Current(table).version;
            (table[i].key in version <==> Visible(table[i])) && (Visible(table[i]) ==> version[table[i].key] == table[i].value)
  {
    VersionIsVisibleValues(table, table[i].key);
  }

  lemma OtherKeysStay(table: seq<Row>, i: nat, row: Row, k: Key)
    requires KeysDistinct(table) && i < |table| && row.key == table[i].key && k != row.key
    ensures var before, after := Current(table).version, Current(table[i := row]).version;
            (k in after <==> k in before) && (k in before ==> after[k] == before[k])
  {
    var t' := table[i := row];
    VersionIsVisibleValues(table, k);
    VersionIsVisibleValues(t', k);
    assert forall j :: 0 <= j < |table| && j != i ==> t'[j] == table[j];
    if j :| 0 <= j < |table| && Visible(table[j]) && table[j].key == k {
      assert t'[j] == table[j];
    }
    if j :| 0 <= j < |table| && Visible(t'[j]) && t'[j].key == k {
      assert t'[j] == table[j];
    }
  }

  // ---------- what the version misses ----------

  /** What clients see at a group and name. */
  function Served(table: seq<Row>, group: string, name: string): Option<Json> {
    var entries := Entries(Current(table).data, group);
    if name in entries then Some(entries[name]) else None
  }

  lemma ServedIsWinner(table: seq<Row>, w: Row, group: string, name: string)
    requires KeysDistinct(table) && Wins(table, w, group, name)
    ensures Served(table, group, name) == Some(w.value)
  {
    EntryHasWinner(table, group, name);
    var r :| Wins(table, r, group, name) && r.value == Entries(Current(table).data, group)[name];
    WinnerIsUnique(table, w, r, group, name);
  }

  lemma WinnerOf(table: seq<Row>, group: string, name: string) returns (w: Row)
    requires Served(table, group, name).Some?
    ensures Wins(table, w, group, name) && w.value == Served(table, group, name).value
  {
    EntryHasWinner(table, group, name);
    w :| Wins(table, w, group, name) && w.value == Entries(Current(table).data, group)[name];
  }

  function Without(table: seq<Row>, i: nat): seq<Row>
    requires i < |table|
  {
    table[..i] + table[i + 1..]
  }

  lemma WithoutMembers(table: seq<Row>, i: nat, row: Row)
    requires KeysDistinct(table) && i < |table|
    ensures KeysDistinct(Without(table, i))
    ensures row in Without(table, i) <==> row in table && row.key != table[i].key
  {
    var rest := Without(table, i);
    assert forall j :: 0 <= j < i ==> rest[j] == table[j];
    assert forall j :: i < j < |table| ==> rest[j - 1] == table[j];
    assert forall j :: 0 <= j < |rest| ==> rest[j] == table[if j < i then j else j + 1];
  }

  /** A row has no part in an entry it is not visibly placed at. */
  lemma ServedElsewhere(table: seq<Row>, i: nat, group: string, name: string)
    requires KeysDistinct(table) && i < |table| && !(Visible(table[i]) && PlacedAt(table[i], group, name))
    ensures Served(table, group, name) == Served(Without(table, i), group, name)
  {
    forall row: Row ensures row in Without(table, i) <==> row in table && row != table[i] {
      WithoutMembers(table, i, row);
      if row in table && row.key == table[i].key {
        var j :| 0 <= j < |table| && table[j] == row;
      }
    }
    WithoutMembers(table, i, table[i]);
    if Served(Without(table, i), group, name).Some? {
      var w := WinnerOf(Without(table, i), group, name);
      ServedIsWinner(table, w, group, name);
    } else if Served(table, group, name).Some? {
      var w := WinnerOf(table, group, name);
      EntryHasWinner(Without(table, i), group, name);
    }
  }

  /**
    At the row's name in this group, the other visible rows make up for it: the one of them that would be served has
    a greater key, or the same value.
   */
  ghost predicate Shadowed(table: seq<Row>, i: nat, group: string)
    requires i < |table|
  {
    exists w :: Wins(Without(table, i), w, group, PublicName(table[i].key)) && (Less(table[i].key, w.key) || w.value == table[i].value)
  }

  /** A visible row that loses to the winner of the others leaves its entry to it. */
  lemma OvershadowedLoses(table: seq<Row>, i: nat, w: Row, group: string, name: string)
    requires KeysDistinct(table) && i < |table| && Wins(Without(table, i), w, group, name) && Less(table[i].key, w.key)
    ensures Wins(table, w, group, name)
  {
    LessIsAsymmetric(table[i].key, w.key);
    WithoutMembers(table, i, w);
    forall other | other in table && Visible(other) && PlacedAt(other, group, name) ensures !Less(w.key, other.key) {
      WithoutMembers(table, i, other);
    }
  }

  /** A visible row that is not beaten by the winner of the others wins its entry. */
  lemma UnbeatenWins(table: seq<Row>, i: nat, group: string, name: string)
    requires KeysDistinct(table) && i < |table| && Visible(table[i]) && PlacedAt(table[i], group, name)
    requires forall w :: Wins(Without(table, i), w, group, name) ==> !Less(table[i].key, w.key)
    ensures Wins(table, table[i], group, name)
  {
    var row := table[i];
    forall other | other in table && Visible(other) && PlacedAt(other, group, name) ensures !Less(row.key, other.key) {
      WithoutMembers(table, i, other);
      if Less(row.key, other.key) {
        if other.key == row.key {
          LessIsAsymmetric(row.key, other.key);
        } else {
          EntryHasWinner(Without(table, i), group, name);
          var w :| Wins(Without(table, i), w, group, name);
          LessSplits(row.key, w.key, other.key);
        }
      }
    }
  }

  /** Taking a visible row out of its entry changes what is served there exactly when the others do not make up for it. */
  lemma ServedWithoutRow(table: seq<Row>, i: nat, group: string, name: string)
    requires KeysDistinct(table) && i < |table| && Visible(table[i]) && PlacedAt(table[i], group, name)
    ensures Served(table, group, name) == Served(Without(table, i), group, name) <==> Shadowed(table, i, group)
  {
    var rest := Without(table, i);
    WithoutMembers(table, i, table[i]);
    if Served(rest, group, name).None? {
      EntryHasWinner(rest, group, name);
      EntryHasWinner(table, group, name);
      assert table[i] in table;
    } else {
      var w := WinnerOf(rest, group, name);
      forall v | Wins(rest, v, group, name) ensures v == w {
        WinnerIsUnique(rest, v, w, group, name);
      }
      if Less(table[i].key, w.key) {
        OvershadowedLoses(table, i, w, group, name);
        ServedIsWinner(table, w, group, name);
      } else {
        UnbeatenWins(table, i, group, name);
        ServedIsWinner(table, table[i], group, name);
      }
    }
  }

  /** The same table but for a visible row that is moved to another category. */
  ghost predicate Moves(table: seq<Row>, i: nat, row: Row) {
    && i < |table| && Visible(table[i]) && Visible(row)
    && row.key == table[i].key && row.value == table[i].value && row.category != table[i].category
  }

  lemma MovedPlaces(table: seq<Row>, i: nat, row: Row, group: string, name: string)
    requires KeysDistinct(table) && Moves(table, i, row)
    ensures var t' := table[i := row];
            && KeysDistinct(t') && Without(t', i) == Without(table, i) && (Shadowed(t', i, group) <==> Shadowed(table, i, group))
            && !(PlacedAt(table[i], group, name) && PlacedAt(row, group, name))
  {
    GroupNames(row.category, table[i].category);
  }

  lemma MoveAtEntry(table: seq<Row>, i: nat, row: Row, group: string, name: string)
    requires KeysDistinct(table) && Moves(table, i, row)
    ensures Served(table[i := row], group, name) == Served(table, group, name)
            <==> (PlacedAt(table[i], group, name) || PlacedAt(row, group, name) ==> Shadowed(table, i, group))
  {
    var t' := table[i := row];
    MovedPlaces(table, i, row, group, name);
    if PlacedAt(table[i], group, name) {
      ServedWithoutRow(table, i, group, name);
      ServedElsewhere(t', i, group, name);
    } else if PlacedAt(row, group, name) {
      ServedElsewhere(table, i, group, name);
      ServedWithoutRow(t', i, group, name);
    } else {
      ServedElsewhere(table, i, group, name);
      ServedElsewhere(t', i, group, name);
    }
  }

  lemma SameServedSameData(a: seq<Row>, b: seq<Row>)
    requires forall group, name :: Served(a, group, name) == Served(b, group, name)
    ensures Current(a).data == Current(b).data
  {
    forall group ensures Entries(Current(a).data, group) == Entries(Current(b).data, group) {
      var x, y := Entries(Current(a).data, group), Entries(Current(b).data, group);
      forall name ensures (name in x <==> name in y) && (name in x ==> x[name] == y[name]) {
        assert Served(a, group, name) == Served(b, group, name);
      }
    }
    SameEntriesSameData(a, b);
  }

  /** A move goes unseen by clients exactly when the row is made up for in the group it leaves and in the one it joins. */
  lemma MoveShows(table: seq<Row>, i: nat, row: Row)
    requires KeysDistinct(table) && Moves(table, i, row)
    ensures Current(table[i := row]).data == Current(table).data
            <==> Shadowed(table, i, GroupName(table[i].category)) && Shadowed(table, i, GroupName(row.category))
  {
    var name := PublicName(row.key);
    MoveAtEntry(table, i, row, GroupName(table[i].category), name);
    MoveAtEntry(table, i, row, GroupName(row.category), name);
    if Shadowed(table, i, GroupName(table[i].category)) && Shadowed(table, i, GroupName(row.category)) {
      forall group, name ensures Served(table[i := row], group, name) == Served(table, group, name) {
        MoveAtEntry(table, i, row, group, name);
      }
      SameServedSameData(table[i := row], table);
    }
  }

  /**
    The version misses an update of the payload exactly when the update moves a visible row to another category with
    its value unchanged, and the row is not made up for both in the group it leaves and in the group it joins.
   */
  lemma UpdatesTheVersionMisses(table: seq<Row>, c: Change, i: nat)
    requires KeysDistinct(table) && Rewrites(table, c, i)
    ensures var row, after, t' := table[i], Updated(table[i], c), Apply(table, c).value;
            var missed := Current(t').version == Current(table).version && Current(t').data != Current(table).data;
            missed <==> Moves(table, i, after)
                        && !(Shadowed(table, i, GroupName(row.category)) && Shadowed(table, i, GroupName(after.category)))
  {
    var row, after, t' := table[i], Updated(table[i], c), Apply(table, c).value;
    UpdateShowsInVersion(table, c, i);
    if Moves(table, i, after) {
      MoveShows(table, i, after);
    } else if Current(t').version == Current(table).version {
      assert SameCategories(t', table);
      VersionFixesData(t', table);
    }
  }

  /** The payload changes and its version does not. */
  ghost predicate Missed(before: seq<Row>, after: seq<Row>) {
    Current(after).version == Current(before).version && Current(after).data != Current(before).data
  }

  lemma CreateIsNotMissed(table: seq<Row>, row: Row)
    requires KeysDistinct(table) && forall i :: 0 <= i < |table| ==> table[i].key != row.key
    ensures !Missed(table, table + [row])
  {
    var t' := table + [row];
    assert t'[..|table|] == table;
    if Visible(row) {
      OwnVersion(t', |table|);
      VersionIsVisibleValues(table, row.key);
    }
  }

  lemma HidingIsNotMissed(table: seq<Row>, i: nat, row: Row)
    requires KeysDistinct(table) && i < |table| && row.key == table[i].key && !Visible(row)
    ensures !Missed(table, table[i := row])
  {
    VersionAfterRewrite(table, i, row);
    if !Visible(table[i]) {
      assert SameCategories(table[i := row], table);
      if Current(table[i := row]).version == Current(table).version {
        VersionFixesData(table[i := row], table);
      }
    }
  }

  /** Of all accepted changes the version misses exactly those category moves. */
  lemma ChangesTheVersionMisses(table: seq<Row>, c: Change)
    requires KeysDistinct(table) && Apply(table, c).Ok?
    ensures Missed(table, Apply(table, c).value) <==>
            c.Update? && var i := Find(table, c.key).value;
                         var after := Updated(table[i], c);
                         Moves(table, i, after)
                         && !(Shadowed(table, i, GroupName(table[i].category)) && Shadowed(table, i, GroupName(after.category)))
  {
    match c
    case Create(key, value, valueType, category, isPublic, isActive) =>
      CreateIsNotMissed(table, Row(key, value, valueType, category, isPublic, isActive));
    case Update(key, _, _, _, _) =>
      UpdatesTheVersionMisses(table, c, Find(table, key).value);
    case Deactivate(key) =>
      var i := Find(table, key).value;
      HidingIsNotMissed(table, i, table[i].(isActive := false));
  }

  /** Where visible rows have entries of their own, every such move is missed. */
  lemma MovesAreMissed(table: seq<Row>, c: Change, i: nat)
    requires KeysDistinct(table) && Rewrites(table, c, i)
    requires Moves(table, i, Updated(table[i], c)) && PlacesDistinct(Apply(table, c).value)
    ensures Current(Apply(table, c).value).version == Current(table).version
    ensures Current(Apply(table, c).value).data != Current(table).data
  {
    var after, t' := Updated(table[i], c), Apply(table, c).value;
    var group, name := GroupName(after.category), PublicName(after.key);
    forall w | w in Without(table, i) && Visible(w) ensures !PlacedAt(w, group, name) {
      WithoutMembers(table, i, w);
      var j :| 0 <= j < |table| && table[j] == w;
      GroupNames(w.category, after.category);
      assert j != i && t'[j] == w && t'[i] == after;
      assert SamePlace(t'[i], t'[j]) == SamePlace(t'[j], t'[i]) == PlacedAt(w, group, name);
    }
    UpdatesTheVersionMisses(table, c, i);
    UpdateShowsInVersion(table, c, i);
  }

  /** The failure at every first input: moving the only entry, just created, changes the payload and not the version. */
  lemma FirstMoveIsMissed(create: Change, category: Category)
    requires create.Create? && Apply([], create).Ok? && create.isPublic && create.isActive && category != create.category
    ensures var first := Apply([], create).value;
            var move := Update(create.key, None, Some(category), None, None);
            && Apply(first, move).Ok?
            && Current(Apply(first, move).value).version == Current(first).version
            && Current(Apply(first, move).value).data != Current(first).data
  {
    var first := Apply([], create).value;
    assert |first| == 1 && first[0].key == create.key;
    assert Find(first, create.key) == Some(0);
    MovesAreMissed(first, Update(create.key, None, Some(category), None, None), 0);
  }
}
