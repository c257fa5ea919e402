/** What each factor of the score rewards, and which reasons it names, told from the two profiles. */
module ScoringOutcomes {
  import opened Common
  import opened Scoring

  // ---------- texts that differ in case only ----------

  predicate SameLetter(a: char, b: char) {
    || a == b
    || ('A' <= a <= 'Z' && b as int == a as int + 32)
    || ('A' <= b <= 'Z' && a as int == b as int + 32)
  }

  predicate SameText(a: string, b: string) {
    |a| == |b| && forall i :: 0 <= i < |a| ==> SameLetter(a[i], b[i])
  }

  lemma LowerIsSameText(a: string, b: string)
    ensures Lower(a) == Lower(b) <==> SameText(a, b)
  {
    if Lower(a) == Lower(b) {
      assert |Lower(a)| == |a| && |Lower(b)| == |b|;
      forall i | 0 <= i < |a| ensures SameLetter(a[i], b[i]) {
        assert Lower(a)[i] == Lower(b)[i];
      }
    }
    if SameText(a, b) {
      assert forall i :: 0 <= i < |a| ==> Lower(a)[i] == Lower(b)[i];
    }
  }

  // ---------- what a factor is worth ----------

  /** A factor's points are its weight times its share, and no share is clipped. */
  lemma SharesAreShares(f: Factor, v: Payload, c: Payload, band: AgeBand)
    ensures 0.0 <= PartOf(f, v, c, band).sub <= 1.0
    ensures Points(f, PartOf(f, v, c, band)) == Weight(f) * PartOf(f, v, c, band).sub
  {
    if f == Interests && v.interests != {} && c.interests != {} {
      InterestsShare(v, c, band);
    }
  }

  /** Half for an unknown age, all inside the viewer's band; outside it a twentieth less for each year between the two. */
  lemma AgeShare(v: Payload, c: Payload, band: AgeBand, years: nat)
    requires v.age.Some? && c.age.Some? ==> years == Max(v.age.value - c.age.value, c.age.value - v.age.value)
    ensures var share := PartOf(Age, v, c, band).sub;
            if v.age.None? || c.age.None? then share == 0.5
            else if band.lo.Some? && band.hi.Some? && band.lo.value <= c.age.value <= band.hi.value then share == 1.0
            else if years <= 20 then share * 20.0 == (20 - years) as real
            else share == 0.0
  {
  }

  /** All within five centimetres; otherwise two fifths if the candidate's height is known, and half if it is not. */
  lemma HeightShare(v: Payload, c: Payload, band: AgeBand)
    ensures var share := PartOf(Height, v, c, band).sub;
            if c.heightCm.None? then share == 0.5
            else if v.heightCm.Some? && Max(v.heightCm.value - c.heightCm.value, c.heightCm.value - v.heightCm.value) <= 5 then share == 1.0
            else share == 0.4
  {
  }

  /** The more of country, state and city agree, from the country down, the larger the share. */
  lemma LocationShare(v: Payload, c: Payload, band: AgeBand)
    ensures var share := PartOf(Location, v, c, band).sub;
            && (v.country != c.country ==> share == 0.3)
            && (v.country == c.country && Given(v.country) && v.state != c.state ==> share == 0.5)
            && (v.country == c.country && Given(v.country) && v.state == c.state && v.city != c.city ==> share == 0.8)
            && (v.country == c.country && Given(v.country) && v.state == c.state && v.city == c.city ==> share == 1.0)
            && (!Given(v.country) ==>
                  share == if v.country == c.country && v.state == c.state && v.city == c.city && (Given(v.state) || Given(v.city)) then 1.0 else 0.3)
  {
  }

  predicate IsText(f: Factor) {
    f in {Religion, Caste, Language, Education, Occupation}
  }

  predicate IsChoice(f: Factor) {
    f in {Diet, Smoking, Drinking, Family, Marital, Intent}
  }

  /** The profile field a factor compares. */
  function FieldOf(f: Factor, p: Payload): Text
    requires IsText(f) || IsChoice(f)
  {
    match f
    case Religion => p.religion case Caste => p.caste case Language => p.motherTongue
    case Education => p.education case Occupation => p.occupation
    case Diet => p.diet case Smoking => p.smoking case Drinking => p.drinking
    case Family => p.familyValues case Marital => p.maritalStatus case Intent => p.intent
  }

  /** Half unless both sides say something; then all or nothing, free texts without regard to case. */
  lemma FieldShare(f: Factor, v: Payload, c: Payload, band: AgeBand)
    requires IsText(f) || IsChoice(f)
    ensures var mine, theirs, share := FieldOf(f, v), FieldOf(f, c), PartOf(f, v, c, band).sub;
            && (!Given(mine) || !Given(theirs) ==> share == 0.5)
            && (Given(mine) && Given(theirs) && IsText(f) ==> share == if SameText(mine.value, theirs.value) then 1.0 else 0.0)
            && (Given(mine) && Given(theirs) && IsChoice(f) ==> share == if mine.value == theirs.value then 1.0 else 0.0)
  {
    var mine, theirs := FieldOf(f, v), FieldOf(f, c);
    if Given(mine) && Given(theirs) {
      LowerIsSameText(mine.value, theirs.value);
    }
  }

  /** Half unless both sides have interests; then the shared ones as a share of all the two have. */
  lemma InterestsShare(v: Payload, c: Payload, band: AgeBand)
    ensures var share := PartOf(Interests, v, c, band).sub;
            && (v.interests == {} || c.interests == {} ==> share == 0.5)
            && (v.interests != {} && c.interests != {} ==>
                  && 1 <= |v.interests + c.interests|
                  && |v.interests * c.interests| <= |v.interests + c.interests|
                  && share * |v.interests + c.interests| as real == |v.interests * c.interests| as real
                  && 0.0 <= share <= 1.0)
  {
    var shared, all := v.interests * c.interests, v.interests + c.interests;
    if v.interests != {} && c.interests != {} {
      SubsetIsSmaller(shared, all);
      var x :| x in v.interests;
      assert x in all;
      assert |all| >= 1;
      Ratio(|shared|, |all|);
    }
  }

  lemma SubsetIsSmaller(a: set<string>, b: set<string>)
    requires a <= b
    ensures |a| <= |b|
  {
    assert b == a + (b - a);
  }

  lemma Ratio(a: nat, b: nat)
    requires a <= b && b >= 1
    ensures a as real / b as real * b as real == a as real && 0.0 <= a as real / b as real <= 1.0
  {
  }

  // ---------- which reasons are named ----------

  /** The factor agrees well enough to be given as a reason. */
  predicate Earns(f: Factor, v: Payload, c: Payload, band: AgeBand) {
    match f
    case Age => v.age.Some? && c.age.Some? && band.lo.Some? && band.hi.Some? && band.lo.value <= c.age.value <= band.hi.value
    case Height => v.heightCm.Some? && c.heightCm.Some? && v.heightCm.value <= c.heightCm.value + 5 && c.heightCm.value <= v.heightCm.value + 5
    case Location => v.country == c.country && v.state == c.state
                     && (Given(v.country) || (v.city == c.city && (Given(v.state) || Given(v.city))))
    case Religion => Given(v.religion) && Given(c.religion) && SameText(v.religion.value, c.religion.value)
    case Caste => Given(v.caste) && Given(c.caste) && SameText(v.caste.value, c.caste.value)
    case Language => Given(v.motherTongue) && Given(c.motherTongue) && SameText(v.motherTongue.value, c.motherTongue.value)
    case Education => Given(v.education) && Given(c.education) && SameText(v.education.value, c.education.value)
    case Occupation => Given(v.occupation) && Given(c.occupation) && SameText(v.occupation.value, c.occupation.value)
    case Diet => Given(v.diet) && v.diet == c.diet
    case Marital => Given(v.maritalStatus) && v.maritalStatus == c.maritalStatus
    case Intent => Given(v.intent) && v.intent == c.intent
    case Interests => v.interests != {} && c.interests != {} && 10 * |v.interests * c.interests| >= 7 * |v.interests + c.interests|
    case _ => false
  }

  lemma NamedIsEarned(f: Factor, v: Payload, c: Payload, band: AgeBand)
    ensures Named(PartOf(f, v, c, band)) <==> Earns(f, v, c, band)
  {
    if IsText(f) {
      FieldShare(f, v, c, band);
    } else if f == Interests && v.interests != {} && c.interests != {} {
      InterestsShare(v, c, band);
      AtLeastSevenTenths(PartOf(Interests, v, c, band).sub, |v.interests * c.interests|, |v.interests + c.interests|);
    }
  }

  lemma AtLeastSevenTenths(share: real, a: nat, b: nat)
    requires b >= 1 && share * b as real == a as real
    ensures share >= 0.7 <==> 10 * a >= 7 * b
  {
    assert share >= 0.7 ==> share * b as real >= 0.7 * b as real;
    assert share < 0.7 ==> share * b as real < 0.7 * b as real;
  }

  /**
    The reasons given are exactly the factors on which the two agree: age in the viewer's band, height within five
    centimetres, country and state, equal texts up to case, equal diet, marital status and intent, and seven tenths of
    the interests.  Smoking, drinking and family values are never given.
   */
  lemma ReasonsExactly(v: Payload, c: Payload, band: AgeBand, f: Factor)
    ensures f in ReasonCodes(v, c, band) <==> Earns(f, v, c, band)
  {
    var parts := Parts(v, c, band);
    CodesMembers(parts, |parts|, f);
    assert parts[Index(f)] == PartOf(f, v, c, band);
    NamedIsEarned(f, v, c, band);
  }
}
