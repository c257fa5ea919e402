/**
  The deterministic compatibility score, over exact reals: a factor's weight is in points out of 100,
  so a total here is the code's total times 100.
 */
module Scoring {
  import opened Common

  datatype Factor =
    | Age | Height | Location | Religion | Caste | Language | Education | Occupation
    | Diet | Smoking | Drinking | Family | Marital | Intent | Interests

  const FACTORS: nat := 15

  /** The factors in the order the engine adds them. */
  function Nth(k: nat): Factor
    requires k < FACTORS
  {
    match k
    case 0 => Age case 1 => Height case 2 => Location
    case 3 => Religion case 4 => Caste case 5 => Language case 6 => Education case 7 => Occupation
    case 8 => Diet case 9 => Smoking case 10 => Drinking case 11 => Family case 12 => Marital case 13 => Intent
    case _ => Interests
  }

  function Weight(f: Factor): real {
    match f
    case Age => 14.0 case Height => 4.0 case Location => 10.0
    case Religion => 10.0 case Caste => 8.0 case Language => 8.0 case Education => 8.0 case Occupation => 6.0
    case Diet => 6.0 case Smoking => 5.0 case Drinking => 5.0 case Family => 5.0 case Marital => 3.0 case Intent => 2.0
    case Interests => 6.0
  }

  type Text = Option<string>

  datatype Payload = Payload(
    age: Option<int>, heightCm: Option<int>,
    country: Text, state: Text, city: Text,
    religion: Text, caste: Text, motherTongue: Text, education: Text, occupation: Text,
    diet: Text, smoking: Text, drinking: Text, familyValues: Text, maritalStatus: Text, intent: Text,
    interests: set<string>)

  datatype AgeBand = AgeBand(lo: Option<int>, hi: Option<int>)

  predicate Given(t: Text) {
    t.Some? && t.value != ""
  }

  function LowerChar(c: char): char {
    if 'A' <= c <= 'Z' then (c as int + 32) as char else c
  }

  function Lower(s: string): string {
    seq(|s|, i requires 0 <= i < |s| => LowerChar(s[i]))
  }

  predicate Approx(x: Option<int>, y: Option<int>, tolerance: int) {
    x.Some? && y.Some? && -tolerance <= x.value - y.value <= tolerance
  }

  predicate InBand(band: AgeBand, age: int) {
    band.lo.Some? && band.hi.Some? && band.lo.value <= age <= band.hi.value
  }

  /** What one factor is given: a sub-score, and whether it may be named as a reason. */
  datatype Part = Part(sub: real, reason: bool)

  function AgePart(v: Payload, c: Payload, band: AgeBand): Part {
    if v.age.None? || c.age.None? then Part(0.5, false)
    else if InBand(band, c.age.value) then Part(1.0, true)
    else
      var diff := if v.age.value >= c.age.value then v.age.value - c.age.value else c.age.value - v.age.value;
      var sub := 1.0 - diff as real / 20.0;
      Part(if sub > 0.0 then sub else 0.0, false)
  }

  function HeightPart(v: Payload, c: Payload): Part {
    if Approx(v.heightCm, c.heightCm, 5) then Part(1.0, true)
    else if c.heightCm.Some? then Part(0.4, false)
    else Part(0.5, false)
  }

  function LocationPart(v: Payload, c: Payload): Part {
    if v.country == c.country && v.state == c.state && v.city == c.city && (Given(v.country) || Given(v.state) || Given(v.city))
    then Part(1.0, true)
    else if v.country == c.country && v.state == c.state && Given(v.country) then Part(0.8, true)
    else if Given(v.country) && v.country == c.country then Part(0.5, false)
    else Part(0.3, false)
  }

  function TextPart(v: Text, c: Text): Part {
    if Given(v) && Given(c) then Part(if Lower(v.value) == Lower(c.value) then 1.0 else 0.0, true) else Part(0.5, false)
  }

  function ChoicePart(v: Text, c: Text, named: bool): Part {
    if Given(v) && Given(c) then Part(if v == c then 1.0 else 0.0, named) else Part(0.5, false)
  }

  function InterestsPart(v: set<string>, c: set<string>): Part {
    if v != {} && c != {} then Part(|v * c| as real / Max(|v + c|, 1) as real, true) else Part(0.5, false)
  }

  function PartOf(f: Factor, v: Payload, c: Payload, band: AgeBand): Part {
    match f
    case Age => AgePart(v, c, band)
    case Height => HeightPart(v, c)
    case Location => LocationPart(v, c)
    case Religion => TextPart(v.religion, c.religion)
    case Caste => TextPart(v.caste, c.caste)
    case Language => TextPart(v.motherTongue, c.motherTongue)
    case Education => TextPart(v.education, c.education)
    case Occupation => TextPart(v.occupation, c.occupation)
    case Diet => ChoicePart(v.diet, c.diet, true)
    case Smoking => ChoicePart(v.smoking, c.smoking, false)
    case Drinking => ChoicePart(v.drinking, c.drinking, false)
    case Family => ChoicePart(v.familyValues, c.familyValues, false)
    case Marital => ChoicePart(v.maritalStatus, c.maritalStatus, true)
    case Intent => ChoicePart(v.intent, c.intent, true)
    case Interests => InterestsPart(v.interests, c.interests)
  }

  function Clamp(x: real): real {
    var y := if x < 1.0 then x else 1.0;
    if y > 0.0 then y else 0.0
  }

  function Points(f: Factor, p: Part): real {
    Weight(f) * Clamp(p.sub)
  }

  predicate Named(p: Part) {
    p.reason && p.sub >= 0.7
  }

  /** What every factor is given, in the order of the additions. */
  function Parts(v: Payload, c: Payload, band: AgeBand): (parts: seq<Part>)
    ensures |parts| == FACTORS
  {
    seq(FACTORS, i requires 0 <= i < FACTORS => PartOf(Nth(i), v, c, band))
  }

  /** The total of the first `k` factors. */
  function Total(parts: seq<Part>, k: nat): real
    requires |parts| == FACTORS && k <= FACTORS
  {
    if k == 0 then 0.0 else Total(parts, k - 1) + Points(Nth(k - 1), parts[k - 1])
  }

  /** The factors among the first `k` that are named as reasons. */
  function Codes(parts: seq<Part>, k: nat): seq<Factor>
    requires |parts| == FACTORS && k <= FACTORS
  {
    if k == 0 then [] else Codes(parts, k - 1) + (if Named(parts[k - 1]) then [Nth(k - 1)] else [])
  }

  /** Round to the nearest integer, ties to even. */
  function RoundHalfEven(x: real): (r: int)
    ensures r as real - 0.5 <= x <= r as real + 0.5
    ensures x == r as real + 0.5 || x == r as real - 0.5 ==> r % 2 == 0
  {
    var f := x.Floor;
    var d := x - f as real;
    if d < 0.5 then f else if d > 0.5 then f + 1 else if f % 2 == 0 then f else f + 1
  }

  /** The compatibility of a candidate in a viewer's eyes, in points. */
  function Compatibility(v: Payload, c: Payload, band: AgeBand): real {
    var parts := Parts(v, c, band);
    Total(parts, |parts|)
  }

  /** The reason codes of a candidate in a viewer's eyes. */
  function ReasonCodes(v: Payload, c: Payload, band: AgeBand): seq<Factor> {
    var parts := Parts(v, c, band);
    Codes(parts, |parts|)
  }

  /** The reported score, in tenths of a point. */
  function ScoreTenths(v: Payload, c: Payload, band: AgeBand): int {
    RoundHalfEven(Compatibility(v, c, band) * 10.0)
  }

  // ---------- the engine ----------

  /** The running total and codes that the nested helper of the engine writes. */
  class Accumulator {
    var total: real
    var codes: seq<Factor>

    constructor ()
      ensures total == 0.0 && codes == []
    {
      total, codes := 0.0, [];
    }

    method Add(f: Factor, sub: real, reason: bool)
      modifies this
      ensures total == old(total) + Weight(f) * Clamp(sub)
      ensures codes == old(codes) + (if reason && sub >= 0.7 then [f] else [])
    {
      total := total + Weight(f) * Clamp(sub);
      if reason && sub >= 0.7 {
        codes := codes + [f];
      }
    }
  }

  /** The engine: all the additions, then the rounding. */
  method Score(v: Payload, c: Payload, band: AgeBand) returns (tenths: int, codes: seq<Factor>)
    ensures tenths == ScoreTenths(v, c, band)
    ensures codes == ReasonCodes(v, c, band)
  {
    var acc := new Accumulator();
    AddFactors(acc, v, c, band);
    tenths, codes := RoundHalfEven(acc.total * 10.0), acc.codes;
  }

  /** The sequence of additions: straight-line for three factors, two table-driven loops, and the interests. */
  method AddFactors(acc: Accumulator, v: Payload, c: Payload, band: AgeBand)
    requires acc.total == 0.0 && acc.codes == []
    modifies acc
    ensures acc.total == Compatibility(v, c, band) && acc.codes == ReasonCodes(v, c, band)
  {
    ghost var parts := Parts(v, c, band);
    AddBasics(acc, v, c, band);
    AddTexts(acc, TextTable(v, c), parts) by { TextTableFits(v, c, band); }
    AddChoices(acc, ChoiceTable(v, c), parts) by { ChoiceTableFits(v, c, band); }
    AddInterests(acc, v, c, band);
  }

  method AddBasics(acc: Accumulator, v: Payload, c: Payload, band: AgeBand)
    requires acc.total == 0.0 && acc.codes == []
    modifies acc
    ensures acc.total == Total(Parts(v, c, band), 3) && acc.codes == Codes(Parts(v, c, band), 3)
  {
    AddAge(acc, v, c, band);
    AddHeight(acc, v, c);
    var place := LocationPart(v, c);
    acc.Add(Location, place.sub, place.reason);
    FirstThree(v, c, band);
  }

  method AddInterests(acc: Accumulator, v: Payload, c: Payload, band: AgeBand)
    requires acc.total == Total(Parts(v, c, band), 14) && acc.codes == Codes(Parts(v, c, band), 14)
    modifies acc
    ensures acc.total == Compatibility(v, c, band) && acc.codes == ReasonCodes(v, c, band)
  {
    assert Nth(14) == Interests && Parts(v, c, band)[14] == InterestsPart(v.interests, c.interests);
    if v.interests != {} && c.interests != {} {
      var overlap := |v.interests * c.interests| as real / Max(|v.interests + c.interests|, 1) as real;
      acc.Add(Interests, overlap, true);
    } else {
      acc.Add(Interests, 0.5, false);
    }
  }

  lemma FirstThree(v: Payload, c: Payload, band: AgeBand)
    ensures var parts := Parts(v, c, band);
            var age, height, place := AgePart(v, c, band), HeightPart(v, c), LocationPart(v, c);
            && Total(parts, 3) == 0.0 + Points(Age, age) + Points(Height, height) + Points(Location, place)
            && Codes(parts, 3) == [] + (if Named(age) then [Age] else []) + (if Named(height) then [Height] else [])
                                  + (if Named(place) then [Location] else [])
  {
    var parts := Parts(v, c, band);
    assert Nth(0) == Age && Nth(1) == Height && Nth(2) == Location;
    assert Total(parts, 1) == Points(Age, parts[0]) && Codes(parts, 1) == [] + (if Named(parts[0]) then [Age] else []);
    assert Total(parts, 2) == Total(parts, 1) + Points(Height, parts[1]);
    assert Codes(parts, 2) == Codes(parts, 1) + (if Named(parts[1]) then [Height] else []);
  }

  type Table = seq<(Factor, Text, Text)>

  function TextTable(v: Payload, c: Payload): Table {
    [(Religion, v.religion, c.religion), (Caste, v.caste, c.caste), (Language, v.motherTongue, c.motherTongue),
     (Education, v.education, c.education), (Occupation, v.occupation, c.occupation)]
  }

  function ChoiceTable(v: Payload, c: Payload): Table {
    [(Diet, v.diet, c.diet), (Smoking, v.smoking, c.smoking), (Drinking, v.drinking, c.drinking),
     (Family, v.familyValues, c.familyValues), (Marital, v.maritalStatus, c.maritalStatus), (Intent, v.intent, c.intent)]
  }

  /** The enumerated fields whose agreement may be named. */
  predicate NamedChoice(f: Factor) {
    f == Diet || f == Marital || f == Intent
  }

  ghost predicate TextFields(fields: Table, parts: seq<Part>) {
    && |fields| == 5 && |parts| == FACTORS
    && forall i :: 0 <= i < 5 ==> Nth(3 + i) == fields[i].0 && parts[3 + i] == TextPart(fields[i].1, fields[i].2)
  }

  ghost predicate ChoiceFields(fields: Table, parts: seq<Part>) {
    && |fields| == 6 && |parts| == FACTORS
    && forall i :: 0 <= i < 6 ==>
         Nth(8 + i) == fields[i].0 && parts[8 + i] == ChoicePart(fields[i].1, fields[i].2, NamedChoice(fields[i].0))
  }

  lemma TextTableFits(v: Payload, c: Payload, band: AgeBand)
    ensures TextFields(TextTable(v, c), Parts(v, c, band))
  {
  }

  lemma ChoiceTableFits(v: Payload, c: Payload, band: AgeBand)
    ensures ChoiceFields(ChoiceTable(v, c), Parts(v, c, band))
  {
  }

  method AddAge(acc: Accumulator, v: Payload, c: Payload, band: AgeBand)
    modifies acc
    ensures acc.total == old(acc.total) + Points(Age, AgePart(v, c, band))
    ensures acc.codes == old(acc.codes) + (if Named(AgePart(v, c, band)) then [Age] else [])
  {
    if v.age.Some? && c.age.Some? {
      if InBand(band, c.age.value) {
        acc.Add(Age, 1.0, true);
      } else {
        var diff := if v.age.value >= c.age.value then v.age.value - c.age.value else c.age.value - v.age.value;
        var sub := 1.0 - diff as real / 20.0;
        acc.Add(Age, if sub > 0.0 then sub else 0.0, false);
      }
    } else {
      acc.Add(Age, 0.5, false);
    }
  }

  method AddHeight(acc: Accumulator, v: Payload, c: Payload)
    modifies acc
    ensures acc.total == old(acc.total) + Points(Height, HeightPart(v, c))
    ensures acc.codes == old(acc.codes) + (if Named(HeightPart(v, c)) then [Height] else [])
  {
    if Approx(v.heightCm, c.heightCm, 5) {
      acc.Add(Height, 1.0, true);
    } else if c.heightCm.Some? {
      acc.Add(Height, 0.4, false);
    } else {
      acc.Add(Height, 0.5, false);
    }
  }

  /** The loop over the free-text fields, which match without regard to case. */
  method AddTexts(acc: Accumulator, fields: Table, ghost parts: seq<Part>)
    requires TextFields(fields, parts)
    requires acc.total == Total(parts, 3) && acc.codes == Codes(parts, 3)
    modifies acc
    ensures acc.total == Total(parts, 8) && acc.codes == Codes(parts, 8)
  {
    for i := 0 to |fields|
      invariant acc.total == Total(parts, 3 + i) && acc.codes == Codes(parts, 3 + i)
    {
      var (f, mine, theirs) := fields[i];
      if Given(mine) && Given(theirs) {
        acc.Add(f, if Lower(mine.value) == Lower(theirs.value) then 1.0 else 0.0, true);
      } else {
        acc.Add(f, 0.5, false);
      }
    }
  }

  /** The loop over the enumerated fields, only some of which are named as reasons. */
  method AddChoices(acc: Accumulator, fields: Table, ghost parts: seq<Part>)
    requires ChoiceFields(fields, parts)
    requires acc.total == Total(parts, 8) && acc.codes == Codes(parts, 8)
    modifies acc
    ensures acc.total == Total(parts, 14) && acc.codes == Codes(parts, 14)
  {
    for i := 0 to |fields|
      invariant acc.total == Total(parts, 8 + i) && acc.codes == Codes(parts, 8 + i)
    {
      var (f, mine, theirs) := fields[i];
      assert Nth(8 + i) == f && parts[8 + i] == ChoicePart(mine, theirs, NamedChoice(f));
      if Given(mine) && Given(theirs) {
        acc.Add(f, if mine == theirs then 1.0 else 0.0, NamedChoice(f));
      } else {
        acc.Add(f, 0.5, false);
      }
    }
  }

  // ---------- bounds ----------

  function MinPoints(f: Factor): real {
    match f
    case Height => 1.6
    case Location => 3.0
    case Family => 2.5
    case _ => 0.0
  }

  function MaxPoints(f: Factor): real {
    match f
    case Age => 14.0 case Height => 4.0 case Location => 10.0
    case Religion => 10.0 case Caste => 8.0 case Language => 8.0 case Education => 8.0 case Occupation => 6.0
    case Diet => 6.0 case Smoking => 5.0 case Drinking => 5.0 case Family => 2.5 case Marital => 3.0 case Intent => 2.0
    case Interests => 6.0
  }

  function Lowest(k: nat): real
    requires k <= FACTORS
  {
    if k == 0 then 0.0 else Lowest(k - 1) + MinPoints(Nth(k - 1))
  }

  function Highest(k: nat): real
    requires k <= FACTORS
  {
    if k == 0 then 0.0 else Highest(k - 1) + MaxPoints(Nth(k - 1))
  }

  lemma EndsOfTheRange()
    ensures Lowest(FACTORS) == 7.1 && Highest(FACTORS) == 97.5
  {
    assert Lowest(3) == 4.6;
    assert Lowest(9) == 4.6;
    assert Highest(3) == 28.0;
    assert Highest(6) == 54.0;
    assert Highest(9) == 74.0;
    assert Highest(12) == 86.5;
  }

  lemma Scaled(w: real, x: real, lo: real, hi: real)
    requires w > 0.0 && lo <= x <= hi
    ensures w * lo <= w * x <= w * hi
  {
  }

  ghost predicate Within(parts: seq<Part>)
    requires |parts| == FACTORS
  {
    forall i :: 0 <= i < FACTORS ==> MinPoints(Nth(i)) <= Points(Nth(i), parts[i]) <= MaxPoints(Nth(i))
  }

  lemma PartBounds(f: Factor, v: Payload, c: Payload, band: AgeBand)
    requires v.familyValues.None? && c.familyValues.None?
    ensures MinPoints(f) <= Points(f, PartOf(f, v, c, band)) <= MaxPoints(f)
  {
    var p := PartOf(f, v, c, band);
    Scaled(Weight(f), Clamp(p.sub), 0.0, 1.0);
    if f == Height {
      assert p.sub >= 0.4;
    } else if f == Location {
      assert p.sub >= 0.3;
    } else if f == Family {
      assert p.sub == 0.5;
    }
  }

  lemma PartsWithin(v: Payload, c: Payload, band: AgeBand)
    requires v.familyValues.None? && c.familyValues.None?
    ensures Within(Parts(v, c, band))
  {
    var parts := Parts(v, c, band);
    forall i | 0 <= i < FACTORS
      ensures MinPoints(Nth(i)) <= Points(Nth(i), parts[i]) <= MaxPoints(Nth(i))
    {
      var f := Nth(i);
      assert parts[i] == PartOf(f, v, c, band);
      PartBounds(f, v, c, band);
    }
  }

  lemma {:induction false} TotalBounds(parts: seq<Part>, k: nat)
    requires |parts| == FACTORS && k <= FACTORS && Within(parts)
    ensures Lowest(k) <= Total(parts, k) <= Highest(k)
  {
    if k > 0 {
      TotalBounds(parts, k - 1);
    }
  }

  lemma RoundBetween(x: real, lo: int, hi: int)
    requires lo as real <= x <= hi as real
    ensures lo <= RoundHalfEven(x) <= hi
  {
  }

  /** Service payloads carry no family values, and then every score is between 7.1 and 97.5. */
  lemma ScoreBounds(v: Payload, c: Payload, band: AgeBand)
    requires v.familyValues.None? && c.familyValues.None?
    ensures 7.1 <= Compatibility(v, c, band) <= 97.5
    ensures 71 <= ScoreTenths(v, c, band) <= 975
  {
    PartsWithin(v, c, band);
    TotalBounds(Parts(v, c, band), FACTORS);
    EndsOfTheRange();
    RoundBetween(Compatibility(v, c, band) * 10.0, 71, 975);
  }

  const SOMEONE := Payload(Some(30), Some(170), Some("in"), Some("ka"), Some("blr"),
                           Some("a"), Some("a"), Some("a"), Some("a"), Some("a"),
                           Some("a"), Some("a"), Some("a"), None, Some("a"), Some("a"), {"a"})

  const OPPOSITE := Payload(Some(60), Some(190), Some("us"), Some("ny"), Some("nyc"),
                            Some("b"), Some("b"), Some("b"), Some("b"), Some("b"),
                            Some("b"), Some("b"), Some("b"), None, Some("b"), Some("b"), {"b"})

  lemma OppositesShareNothing()
    ensures TextPart(Some("a"), Some("b")) == Part(0.0, true) && TextPart(Some("a"), Some("a")) == Part(1.0, true)
    ensures ChoicePart(Some("a"), Some("b"), true).sub == ChoicePart(Some("a"), Some("b"), false).sub == 0.0
    ensures ChoicePart(Some("a"), Some("a"), true).sub == ChoicePart(Some("a"), Some("a"), false).sub == 1.0
    ensures InterestsPart({"a"}, {"b"}).sub == 0.0 && InterestsPart({"a"}, {"a"}).sub == 1.0
  {
    assert Lower("a")[0] == 'a' && Lower("b")[0] == 'b';
    var a: set<string> := {"a"};
    var b: set<string> := {"b"};
    assert "a"[0] != "b"[0];
    assert a * b == {} && a * a == a && a + a == a;
  }

  lemma LowestExample(f: Factor)
    ensures Points(f, PartOf(f, SOMEONE, OPPOSITE, AgeBand(None, None))) == MinPoints(f)
  {
    OppositesShareNothing();
    assert "in"[0] != "us"[0];
  }

  lemma HighestExample(f: Factor)
    ensures Points(f, PartOf(f, SOMEONE, SOMEONE, AgeBand(Some(30), Some(30)))) == MaxPoints(f)
  {
    OppositesShareNothing();
  }

  /** When every factor is at its least, or its most, so is the score. */
  lemma AllLowest(v: Payload, c: Payload, band: AgeBand)
    requires forall f :: Points(f, PartOf(f, v, c, band)) == MinPoints(f)
    ensures ScoreTenths(v, c, band) == 71
  {
    LowestReached(Parts(v, c, band), FACTORS);
    EndsOfTheRange();
  }

  lemma AllHighest(v: Payload, c: Payload, band: AgeBand)
    requires forall f :: Points(f, PartOf(f, v, c, band)) == MaxPoints(f)
    ensures ScoreTenths(v, c, band) == 975
  {
    HighestReached(Parts(v, c, band), FACTORS);
    EndsOfTheRange();
  }

  /** Both ends of the range are reached. */
  lemma BoundsAttained()
    ensures ScoreTenths(SOMEONE, OPPOSITE, AgeBand(None, None)) == 71
    ensures ScoreTenths(SOMEONE, SOMEONE, AgeBand(Some(30), Some(30))) == 975
  {
    var none, thirty := AgeBand(None, None), AgeBand(Some(30), Some(30));
    forall f ensures Points(f, PartOf(f, SOMEONE, OPPOSITE, none)) == MinPoints(f) {
      LowestExample(f);
    }
    AllLowest(SOMEONE, OPPOSITE, none);
    forall f ensures Points(f, PartOf(f, SOMEONE, SOMEONE, thirty)) == MaxPoints(f) {
      HighestExample(f);
    }
    AllHighest(SOMEONE, SOMEONE, thirty);
  }

  lemma {:induction false} LowestReached(parts: seq<Part>, k: nat)
    requires |parts| == FACTORS && k <= FACTORS
    requires forall i :: 0 <= i < k ==> Points(Nth(i), parts[i]) == MinPoints(Nth(i))
    ensures Total(parts, k) == Lowest(k)
  {
    if k > 0 {
      LowestReached(parts, k - 1);
    }
  }

  lemma {:induction false} HighestReached(parts: seq<Part>, k: nat)
    requires |parts| == FACTORS && k <= FACTORS
    requires forall i :: 0 <= i < k ==> Points(Nth(i), parts[i]) == MaxPoints(Nth(i))
    ensures Total(parts, k) == Highest(k)
  {
    if k > 0 {
      HighestReached(parts, k - 1);
    }
  }

  // ---------- reasons ----------

  function WeightOf(codes: seq<Factor>): real {
    if codes == [] then 0.0 else WeightOf(codes[..|codes| - 1]) + Weight(codes[|codes| - 1])
  }

  function Index(f: Factor): (i: nat)
    ensures i < FACTORS && Nth(i) == f
  {
    match f
    case Age => 0 case Height => 1 case Location => 2
    case Religion => 3 case Caste => 4 case Language => 5 case Education => 6 case Occupation => 7
    case Diet => 8 case Smoking => 9 case Drinking => 10 case Family => 11 case Marital => 12 case Intent => 13
    case Interests => 14
  }

  /** The weights of the first `k` factors added. */
  function WeightUpTo(k: nat): real
    requires k <= FACTORS
  {
    if k == 0 then 0.0 else WeightUpTo(k - 1) + Weight(Nth(k - 1))
  }

  /** Each factor is added exactly once, and the weights are 100 points. */
  lemma WeightsSumTo100()
    ensures WeightUpTo(FACTORS) == 100.0
    ensures forall i: nat :: i < FACTORS ==> Index(Nth(i)) == i
  {
    assert WeightUpTo(3) == 28.0;
    assert WeightUpTo(6) == 54.0;
    assert WeightUpTo(9) == 74.0;
    assert WeightUpTo(12) == 89.0;
  }

  lemma IndexNth(f: Factor, k: nat)
    requires k < FACTORS
    ensures Index(f) == k <==> f == Nth(k)
  {
  }

  lemma CodesGrow(parts: seq<Part>, k: nat, f: Factor)
    requires |parts| == FACTORS && 1 <= k <= FACTORS
    ensures f in Codes(parts, k) <==> f in Codes(parts, k - 1) || (Named(parts[k - 1]) && f == Nth(k - 1))
  {
  }

  lemma {:induction false} CodesMembers(parts: seq<Part>, k: nat, f: Factor)
    requires |parts| == FACTORS && k <= FACTORS
    ensures f in Codes(parts, k) <==> Index(f) < k && Named(parts[Index(f)])
  {
    if k > 0 {
      CodesMembers(parts, k - 1, f);
      CodesGrow(parts, k, f);
      IndexNth(f, k - 1);
    }
  }

  ghost predicate InOrder(codes: seq<Factor>) {
    forall i, j :: 0 <= i < j < |codes| ==> Index(codes[i]) < Index(codes[j])
  }

  lemma InOrderAppend(codes: seq<Factor>, last: Factor)
    requires InOrder(codes) && forall f :: f in codes ==> Index(f) < Index(last)
    ensures InOrder(codes + [last])
  {
    assert forall i :: 0 <= i < |codes| ==> codes[i] in codes;
  }

  lemma {:induction false} CodesInOrder(parts: seq<Part>, k: nat)
    requires |parts| == FACTORS && k <= FACTORS
    ensures InOrder(Codes(parts, k))
  {
    if k > 0 {
      CodesInOrder(parts, k - 1);
      IndexNth(Nth(k - 1), k - 1);
      forall f | f in Codes(parts, k - 1) ensures Index(f) < k - 1 {
        CodesMembers(parts, k - 1, f);
      }
      if Named(parts[k - 1]) {
        InOrderAppend(Codes(parts, k - 1), Nth(k - 1));
      }
    }
  }

  /** Codes name each factor that earned it, once, in the order of the additions. */
  lemma CodesAreNamed(parts: seq<Part>, k: nat)
    requires |parts| == FACTORS && k <= FACTORS
    ensures var codes := Codes(parts, k);
            && InOrder(codes)
            && (forall f :: f in codes <==> Index(f) < k && Named(parts[Index(f)]))
  {
    CodesInOrder(parts, k);
    forall f ensures f in Codes(parts, k) <==> Index(f) < k && Named(parts[Index(f)]) {
      CodesMembers(parts, k, f);
    }
  }

  /** The reasons carry the score: it is at least 70% of the weight of the factors named. */
  lemma {:induction false} ReasonsCarryScore(parts: seq<Part>, k: nat)
    requires |parts| == FACTORS && k <= FACTORS
    ensures Total(parts, k) >= 0.7 * WeightOf(Codes(parts, k))
  {
    if k > 0 {
      ReasonsCarryScore(parts, k - 1);
      var f := Nth(k - 1);
      var codes := Codes(parts, k);
      Scaled(Weight(f), Clamp(parts[k - 1].sub), if Named(parts[k - 1]) then 0.7 else 0.0, 1.0);
      if Named(parts[k - 1]) {
        assert codes[..|codes| - 1] == Codes(parts, k - 1);
      } else {
        assert codes == Codes(parts, k - 1);
      }
    }
  }

  // ---------- how far the two directions of a pair may differ ----------

  lemma OtherFactorsSymmetric(a: Payload, b: Payload, bandA: AgeBand, bandB: AgeBand, f: Factor)
    requires f != Age && f != Height
    ensures PartOf(f, a, b, bandA) == PartOf(f, b, a, bandB)
  {
    assert a.interests * b.interests == b.interests * a.interests;
    assert a.interests + b.interests == b.interests + a.interests;
  }

  lemma {:induction false} EqualPartsEqualGrowth(p: seq<Part>, q: seq<Part>, k: nat)
    requires |p| == |q| == FACTORS && 2 <= k <= FACTORS && p[2..] == q[2..]
    ensures Total(p, k) - Total(q, k) == Total(p, 2) - Total(q, 2)
  {
    if k > 2 {
      EqualPartsEqualGrowth(p, q, k - 1);
      assert p[2..][k - 3] == q[2..][k - 3];
    }
  }

  /** Exactly two factors depend on who is looking: age, through the viewer's band, and height, when only one is known. */
  lemma DirectionsDiffer(a: Payload, b: Payload, bandA: AgeBand, bandB: AgeBand)
    ensures Compatibility(a, b, bandA) - Compatibility(b, a, bandB) ==
            14.0 * (Clamp(AgePart(a, b, bandA).sub) - Clamp(AgePart(b, a, bandB).sub))
            + 4.0 * (HeightPart(a, b).sub - HeightPart(b, a).sub)
  {
    var p, q := Parts(a, b, bandA), Parts(b, a, bandB);
    forall i | 2 <= i < FACTORS
      ensures p[i] == q[i]
    {
      OtherFactorsSymmetric(a, b, bandA, bandB, Nth(i));
    }
    EqualPartsEqualGrowth(p, q, FACTORS);
    assert Nth(0) == Age && Nth(1) == Height;
    assert Total(p, 1) == Points(Age, AgePart(a, b, bandA)) && Total(q, 1) == Points(Age, AgePart(b, a, bandB));
  }

  /** The two directions are within 14.4 points, and equal when no band applies and height is known on both sides or neither. */
  lemma NearSymmetry(a: Payload, b: Payload, bandA: AgeBand, bandB: AgeBand)
    ensures -14.4 <= Compatibility(a, b, bandA) - Compatibility(b, a, bandB) <= 14.4
    ensures a.heightCm.Some? == b.heightCm.Some?
            && (a.age.None? || b.age.None? || (!InBand(bandA, b.age.value) && !InBand(bandB, a.age.value)))
            ==> Compatibility(a, b, bandA) == Compatibility(b, a, bandB)
  {
    DirectionsDiffer(a, b, bandA, bandB);
  }

  /** The gap of 14.4 points occurs. */
  lemma NearSymmetryIsTight()
    ensures var a, b := SOMEONE, OPPOSITE.(heightCm := None);
            Compatibility(a, b, AgeBand(Some(50), Some(70))) - Compatibility(b, a, AgeBand(None, None)) == 14.4
  {
    DirectionsDiffer(SOMEONE, OPPOSITE.(heightCm := None), AgeBand(Some(50), Some(70)), AgeBand(None, None));
  }
}
