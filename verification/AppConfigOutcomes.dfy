/** What a configuration change does and when it is refused, and how keys, values and groups are written, told from outside. */
module AppConfigOutcomes {
  import opened Common
  import opened AppConfig
  import opened AppConfigTheorems

  // ---------- keys ----------

  predicate IsWord(s: string) {
    s != "" && forall i :: 0 <= i < |s| ==> IsWordChar(s[i])
  }

  /** Words put together with dots. */
  function Join(words: seq<string>): string
    requires words != []
  {
    if |words| == 1 then words[0] else words[0] + "." + Join(words[1..])
  }

  /** Words and dots, beginning and ending with a word, no two dots in a row. */
  predicate IsPath(s: string) {
    && s != "" && IsWordChar(s[0])
    && (forall i :: 0 <= i < |s| ==> IsWordChar(s[i]) || s[i] == '.')
    && (forall i :: 0 <= i < |s| && s[i] == '.' ==> i + 1 < |s| && s[i + 1] != '.')
  }

  lemma {:induction false} JoinIsPath(words: seq<string>)
    requires words != [] && forall i :: 0 <= i < |words| ==> IsWord(words[i])
    ensures IsPath(Join(words)) && words[0] <= Join(words) && ('.' in Join(words) <==> |words| >= 2)
  {
    if |words| > 1 {
      var rest := Join(words[1..]);
      JoinIsPath(words[1..]);
      var s := words[0] + "." + rest;
      var n := |words[0]|;
      assert s[n] == '.' && words[1..][0] <= rest;
      forall i | 0 <= i < |s| ensures IsWordChar(s[i]) || s[i] == '.' {
        assert i < n ==> s[i] == words[0][i];
        assert i > n ==> s[i] == rest[i - n - 1];
      }
      assert forall i :: 0 <= i < n ==> s[i] == words[0][i] && s[i] != '.';
      assert forall i :: n < i < |s| ==> s[i] == rest[i - n - 1];
      forall i | n <= i < |s| && s[i] == '.' ensures i + 1 < |s| && s[i + 1] != '.' {
        if i > n {
          assert rest[i - n - 1] == '.';
        } else {
          assert s[n + 1] == rest[0];
        }
      }
    }
  }

  /** Every such text is words put together. */
  lemma {:induction false} PathIsJoin(s: string) returns (words: seq<string>)
    requires IsPath(s)
    ensures words != [] && (forall i :: 0 <= i < |words| ==> IsWord(words[i])) && s == Join(words)
    decreases |s|
  {
    if '.' in s {
      var n := FirstDot(s);
      var head, tail := s[..n], s[n + 1..];
      forall i | 0 <= i < |tail| ensures tail[i] == s[n + 1 + i] {
      }
      assert tail[0] == s[n + 1];
      var rest := PathIsJoin(tail);
      words := [head] + rest;
      assert words[1..] == rest;
      assert s == head + "." + tail;
    } else {
      words := [s];
    }
  }

  lemma FirstDot(s: string) returns (n: nat)
    requires '.' in s
    ensures n < |s| && s[n] == '.' && forall i :: 0 <= i < n ==> s[i] != '.'
  {
    n := 0;
    while s[n] != '.'
      invariant n < |s| && '.' in s[n..] && forall i :: 0 <= i < n ==> s[i] != '.'
      decreases |s| - n
    {
      assert s[n..] == [s[n]] + s[n + 1..];
      n := n + 1;
    }
  }

  /** A key: at least two words of small letters, digits and underscores joined by dots, the first starting with a letter. */
  ghost predicate Spells(s: string, words: seq<string>) {
    && |words| >= 2 && (forall i :: 0 <= i < |words| ==> IsWord(words[i]))
    && 'a' <= words[0][0] <= 'z' && s == Join(words)
  }

  ghost predicate IsKey(s: string) {
    exists words :: Spells(s, words)
  }

  lemma DottedIsSpelled(s: string)
    ensures IsDotted(s) <==> IsKey(s)
  {
    if IsDotted(s) {
      var words := PathIsJoin(s);
      JoinIsPath(words);
      assert Spells(s, words);
    }
    if words :| Spells(s, words) {
      JoinIsPath(words);
    }
  }

  /** Exactly those keys match, and any of them with a line feed at its end. */
  lemma KeysExactly(s: string)
    ensures KeyMatches(s) <==> IsKey(s) || (s != "" && s[|s| - 1] == '\n' && IsKey(s[..|s| - 1]))
  {
    DottedIsSpelled(s);
    if s != "" {
      DottedIsSpelled(s[..|s| - 1]);
    }
  }

  // ---------- values and colours ----------

  /** A text fits STRING, a whole number INTEGER and FLOAT, a fraction FLOAT, a truth value BOOLEAN, an object or array JSON. */
  lemma ValueTypes(value: Json, t: ValueType)
    ensures value.Null? ==> !ValueFits(value, t)
    ensures value.Text? ==> (ValueFits(value, t) <==> t == STRING)
    ensures value.Integer? ==> (ValueFits(value, t) <==> t == INTEGER || t == FLOAT)
    ensures value.Float? ==> (ValueFits(value, t) <==> t == FLOAT)
    ensures value.Boolean? ==> (ValueFits(value, t) <==> t == BOOLEAN)
    ensures value.Structured? ==> (ValueFits(value, t) <==> t == JSON)
  {
  }

  predicate WritesColor(s: string, digits: string, end: string) {
    |digits| in {3, 6} && (forall i :: 0 <= i < |digits| ==> IsHexDigit(digits[i])) && end in {"", "\n"} && s == "#" + digits + end
  }

  lemma ColorsExactly(s: string)
    ensures ColorMatches(s) <==> exists digits, end :: WritesColor(s, digits, end)
  {
    if IsHexColor(s) {
      assert s == "#" + s[1..] + "";
      assert WritesColor(s, s[1..], "");
    } else if ColorMatches(s) {
      var t := s[..|s| - 1];
      assert t == "#" + t[1..] && s == t + "\n";
      assert WritesColor(s, t[1..], "\n");
    }
    if digits, end :| WritesColor(s, digits, end) {
      ColorIsMatched(s, digits, end);
    }
  }

  lemma ColorIsMatched(s: string, digits: string, end: string)
    requires WritesColor(s, digits, end)
    ensures ColorMatches(s)
  {
    var t := "#" + digits;
    assert forall i :: 1 <= i < |t| ==> t[i] == digits[i - 1];
    assert IsHexColor(t);
    if end == "" {
      assert s == t;
    } else {
      assert s == t + "\n" && s[..|s| - 1] == t;
    }
  }

  // ---------- changes ----------

  predicate HasKey(table: seq<Row>, key: string) {
    exists i :: 0 <= i < |table| && table[i].key == key
  }

  /** The value may be stored under the key with the type. */
  predicate Storable(key: string, value: Json, t: ValueType) {
    ValueFits(value, t) && (IsColorKey(key) && value.Text? ==> ColorMatches(value.s))
  }

  /** A creation adds its row at the end, if its key is well written and new and its value may be stored. */
  lemma CreateOutcome(table: seq<Row>, c: Change)
    requires c.Create?
    ensures var r := Apply(table, c);
            && (r.Ok? <==> KeyMatches(c.key) && !HasKey(table, c.key) && Storable(c.key, c.value, c.valueType))
            && (r.Ok? ==> |r.value| == |table| + 1 && r.value[..|table|] == table && r.value[|table|] == Row(c.key, c.value, c.valueType, c.category, c.isPublic, c.isActive))
            && (r.Err? ==> r.error == if !KeyMatches(c.key) then InvalidKey else if HasKey(table, c.key) then KeyExists
                                      else if ValueFits(c.value, c.valueType) then InvalidColor else InvalidValue)
  {
  }

  /** After a change a field is what the change gives, if it gives it, and else what it was. */
  predicate Given<T(==)>(given: Option<T>, before: T, after: T) {
    if given.Some? then after == given.value else after == before
  }

  /** An update rewrites the given fields of the one row with its key, if a given value may be stored with the row's type. */
  lemma UpdateOutcome(table: seq<Row>, c: Change)
    requires KeysDistinct(table) && c.Update?
    ensures var r := Apply(table, c);
            && (r.Ok? <==> HasKey(table, c.key) && forall i :: 0 <= i < |table| && table[i].key == c.key && c.newValue.Some? ==>
                                                             Storable(c.key, c.newValue.value, table[i].valueType))
            && (r.Ok? ==> |r.value| == |table| && forall i :: 0 <= i < |table| ==> UpdatedRow(table[i], r.value[i], c))
            && (r.Err? ==> (r.error == KeyNotFound <==> !HasKey(table, c.key)) && r.error in {KeyNotFound, InvalidValue, InvalidColor})
  {
    var i := Find(table, c.key);
    if i.Some? {
      assert forall j :: 0 <= j < |table| && table[j].key == c.key ==> j == i.value;
    }
  }

  predicate UpdatedRow(before: Row, after: Row, c: Change)
    requires c.Update?
  {
    if before.key != c.key then after == before
    else
      && after.key == before.key && after.valueType == before.valueType
      && Given(c.newValue, before.value, after.value) && Given(c.newCategory, before.category, after.category)
      && Given(c.newPublic, before.isPublic, after.isPublic) && Given(c.newActive, before.isActive, after.isActive)
  }

  /** A deactivation hides the one row with its key and changes nothing else of it. */
  lemma DeactivateOutcome(table: seq<Row>, c: Change)
    requires KeysDistinct(table) && c.Deactivate?
    ensures var r := Apply(table, c);
            && (r.Ok? <==> HasKey(table, c.key)) && (r.Err? ==> r.error == KeyNotFound)
            && (r.Ok? ==> |r.value| == |table| && forall i :: 0 <= i < |table| ==>
                  r.value[i] == if table[i].key == c.key
                                then Row(table[i].key, table[i].value, table[i].valueType, table[i].category, table[i].isPublic, false)
                                else table[i])
  {
    var i := Find(table, c.key);
    if i.Some? {
      assert forall j :: 0 <= j < |table| && table[j].key == c.key ==> j == i.value;
    }
  }

  // ---------- groups and names ----------

  /** The category as the enumeration writes it. */
  function CategoryText(c: Category): string {
    match c
    case BRANDING => "BRANDING" case APP => "APP" case FEATURES => "FEATURES" case LIMITS => "LIMITS"
    case PRICING => "PRICING" case VERSIONS => "VERSIONS" case LEGAL => "LEGAL" case SUPPORT => "SUPPORT"
  }

  /** A category's group is its name in small letters. */
  lemma GroupIsSmallName(c: Category)
    ensures |GroupName(c)| == |CategoryText(c)|
    ensures forall i :: 0 <= i < |GroupName(c)| ==> GroupName(c)[i] as int == CategoryText(c)[i] as int + 32
  {
  }

  /** The part of a key after its first word, which is its name outside the special cases. */
  lemma NameAfterFirstDot(first: string, rest: string)
    requires '.' !in first
    ensures '.' in first + "." + rest && AfterDot(first + "." + rest) == rest
  {
    var k := first + "." + rest;
    assert k[|first|] == '.';
    forall i | 0 <= i < |first| ensures k[i] != '.' {
      assert k[i] == first[i];
    }
    AfterFirstDot(k, |first|);
    assert k[|first| + 1..] == rest;
  }

  /** A feature is named without its prefix, if it has it. */
  lemma FeatureNames(word: string)
    ensures '.' in "features." + word && '.' in "features." + ("enable_" + word)
    ensures PublicName("features." + ("enable_" + word)) == word
    ensures !("enable_" <= word) ==> PublicName("features." + word) == word
  {
    AfterFeatures(word);
    AfterFeatures("enable_" + word);
    assert ("enable_" + word)[7..] == word;
  }

  /** The support address and number have names of their own. */
  lemma SupportNames(key: Key)
    ensures key == "app.support_email" ==> PublicName(key) == "email"
    ensures key == "app.support_phone" ==> PublicName(key) == "phone"
  {
    assert "features."[0] == 'f' && "app.support_email"[0] == 'a' && "app.support_phone"[0] == 'a';
    assert "app.support_email"[12] != "app.support_phone"[12];
  }

  lemma FeaturesFirst(first: string, rest: string)
    requires '.' !in first && first != "features"
    ensures !("features." <= first + "." + rest)
  {
    var k := first + "." + rest;
    assert k[|first|] == '.';
    assert forall i :: 0 <= i < |first| ==> k[i] == first[i] && k[i] != '.';
    if |first| < 8 {
      assert k[|first|] != "features."[|first|];
    } else if |first| > 8 {
      assert k[8] != "features."[8];
    } else {
      var i :| 0 <= i < 8 && first[i] != "features"[i];
      assert k[i] != "features."[i];
    }
  }

  /** Any other key is named by what follows its first dot. */
  lemma OtherNames(first: string, rest: string)
    requires '.' !in first && first != "features"
    requires first + "." + rest != "app.support_email" && first + "." + rest != "app.support_phone"
    ensures '.' in first + "." + rest && PublicName(first + "." + rest) == rest
  {
    NameAfterFirstDot(first, rest);
    FeaturesFirst(first, rest);
  }
}
