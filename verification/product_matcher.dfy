/**
 * Matching spoken words to a product: each candidate is scored against what
 * was said, confidences are spread by score, and the best candidate may be
 * confirmed without asking.
 */
module ProductMatcher {
  import opened Wrappers
  import opened Arithmetic
  import opened Order
  import opened Words

  /** A catalog entry with its other names. */
  datatype Entry = Entry(name: string, aliases: seq<string>)

  datatype Product = Product(
    id: Id, name: string, description: string,
    partId: Option<Id>, part: Option<Entry>,
    vehicleId: Option<Id>, vehicle: Option<Entry>,
    brandId: Option<Id>, brand: Option<Entry>)

  /** What was said; an empty text or identifier counts as absent. */
  datatype Input = Input(
    partId: Option<Id>, partName: Option<string>,
    vehicleIds: seq<Id>, vehicleName: Option<string>,
    brandId: Option<Id>, brandName: Option<string>,
    keywords: seq<string>, modelIsExplicit: bool)

  datatype Scored = Scored(
    product: Product, score: int, confidence: int,
    partMatched: bool, vehicleMatched: bool, brandMatched: bool, disqualified: bool)

  datatype Verdict = Nothing | Auto(best: Scored, suggestions: seq<Scored>) | Suggest(suggestions: seq<Scored>)

  // ---------- words ----------

  /** White space of a regular expression: tab to carriage return, the blanks, and the line separators. */
  predicate IsSpace(c: char) {
    var n := c as int;
    || 9 <= n <= 13 || n == 0x20 || n == 0xA0 || n == 0x1680 || 0x2000 <= n <= 0x200A
    || n == 0x2028 || n == 0x2029 || n == 0x202F || n == 0x205F || n == 0x3000 || n == 0xFEFF
  }

  /** The separators of a product name, for finding what a part comes without. */
  predicate IsSeparator(c: char) { IsSpace(c) || c in "()/,،.-" }

  const STOPWORDS: set<string> := {"تا", "دونه", "عدد", "تومن", "ریال", "لطفا", "لطفاً", "یه",
    "یک", "یکی", "برای", "از", "به", "در"}

  const FRONT := "جلو"
  const BACK := "عقب"
  const LEFT := "چپ"
  const RIGHT := "راست"
  const WITHOUT := "بدون"

  predicate IsPlace(w: string) { w == FRONT || w == BACK || w == LEFT || w == RIGHT }

  predicate Means(w: string) { |w| >= 2 && w !in STOPWORDS }

  function ContentWords(text: string): seq<string> { Filter(Split(text, IsSpace, []), Means) }

  /** The words that follow "without" in a name. */
  function Negated(words: seq<string>): set<string> {
    if |words| < 2 then {}
    else (if words[0] == WITHOUT then {words[1]} else {}) + Negated(words[1..])
  }

  predicate HitsName(name: string, w: string) {
    w !in Negated(Split(name, IsSeparator, [])) && Includes(name, w)
  }

  // ---------- signals ----------

  /** A signal: whether it matched, and what it adds to the score. */
  datatype Signal = Signal(matched: bool, score: int)

  /** By identifier, else by name, else by another name. */
  function EntrySignal(spokenId: Option<Id>, spokenName: Option<string>, id: Option<Id>, entry: Option<Entry>,
                       byId: int, byName: int, byAlias: int, norm: string -> string): Signal {
    if Given(spokenId) && id == spokenId then Signal(true, byId)
    else if !Given(spokenName) then Signal(false, 0)
    else NameSignal(norm(spokenName.value), entry, byName, byAlias, norm)
  }

  function NameSignal(spoken: string, entry: Option<Entry>, byName: int, byAlias: int, norm: string -> string): Signal {
    var name := if entry.Some? then norm(entry.value.name) else "";
    if name != "" && (Includes(name, spoken) || Includes(spoken, name)) then Signal(true, byName)
    else if entry.Some? && exists i | 0 <= i < |entry.value.aliases| :: norm(entry.value.aliases[i]) == spoken
    then Signal(true, byAlias)
    else Signal(false, 0)
  }

  function PartWords(input: Input, norm: string -> string): seq<string> {
    if Given(input.partName) then ContentWords(norm(input.partName.value)) else []
  }

  function PartHits(name: string, words: seq<string>): nat {
    |Filter(words, (w: string) => !IsPlace(w) && HitsName(name, w))|
  }

  function AtMostThree(n: nat): nat { if n > 3 then 3 else n }

  function CatalogSignal(p: Product, input: Input, norm: string -> string): Signal {
    EntrySignal(input.partId, input.partName, p.partId, p.part, 100, 80, 70, norm)
  }

  function PartSignal(p: Product, input: Input, tokens: seq<string>, norm: string -> string): Signal {
    PartFrom(CatalogSignal(p, input, norm), PartHits(norm(p.name), PartWords(input, norm)),
             PartHits(norm(p.name), tokens))
  }

  /** Each spoken word of the part in the name counts; without any match the keywords do. */
  function PartFrom(catalog: Signal, hits: nat, fallback: nat): Signal {
    var direct := Signal(catalog.matched || hits > 0, catalog.score + AtMostThree(hits) * 45);
    if direct.matched then direct else Signal(fallback > 0, direct.score + AtMostThree(fallback) * 25)
  }

  predicate OtherVehicle(p: Product, input: Input) {
    |input.vehicleIds| > 0 && Given(p.vehicleId) && p.vehicleId.value !in input.vehicleIds
  }

  function VehicleSignal(p: Product, input: Input, norm: string -> string): Signal {
    var direct :=
      if |input.vehicleIds| > 0 then
        if Given(p.vehicleId) && p.vehicleId.value in input.vehicleIds then Signal(true, 70) else Signal(false, 0)
      else if Given(input.vehicleName) then NameSignal(norm(input.vehicleName.value), p.vehicle, 60, 55, norm)
      else Signal(false, 0);
    if !direct.matched && Given(input.vehicleName)
       && exists w | w in ContentWords(norm(input.vehicleName.value)) :: Includes(norm(p.name), w)
    then Signal(true, direct.score + 60)
    else direct
  }

  function BrandSignal(p: Product, input: Input, norm: string -> string): Signal {
    EntrySignal(input.brandId, input.brandName, p.brandId, p.brand, 25, 20, 20, norm)
  }

  function DescriptionScore(description: string, tokens: seq<string>): int {
    if tokens == [] then 0
    else (if Includes(description, tokens[0]) then 5 else 0) + DescriptionScore(description, tokens[1..])
  }

  predicate Intended(w: string, input: Input, tokens: seq<string>, norm: string -> string) {
    w in tokens || w in PartWords(input, norm)
  }

  predicate Opposes(w: string, opposite: string, name: string) { !Includes(name, w) && Includes(name, opposite) }

  function PlaceScore(w: string, opposite: string, p: Product, input: Input, tokens: seq<string>,
                      norm: string -> string): int {
    var name := norm(p.name);
    if !Intended(w, input, tokens, norm) then 0
    else if Includes(name, w) then 20
    else if Includes(name, opposite) then -40
    else 0
  }

  function PlaceScores(p: Product, input: Input, tokens: seq<string>, norm: string -> string): int {
    PlaceScore(FRONT, BACK, p, input, tokens, norm) + PlaceScore(BACK, FRONT, p, input, tokens, norm)
    + PlaceScore(LEFT, RIGHT, p, input, tokens, norm) + PlaceScore(RIGHT, LEFT, p, input, tokens, norm)
  }

  /** A place or side was asked for, and the product's name has only the opposite one. */
  predicate Contradicts(p: Product, input: Input, tokens: seq<string>, norm: string -> string) {
    var name := norm(p.name);
    || (Intended(FRONT, input, tokens, norm) && Opposes(FRONT, BACK, name))
    || (Intended(BACK, input, tokens, norm) && Opposes(BACK, FRONT, name))
    || (Intended(LEFT, input, tokens, norm) && Opposes(LEFT, RIGHT, name))
    || (Intended(RIGHT, input, tokens, norm) && Opposes(RIGHT, LEFT, name))
  }

  predicate IsLong(w: string) { |w| >= 2 }

  function IsIntended(input: Input, tokens: seq<string>, norm: string -> string): string -> bool {
    (w: string) => Intended(w, input, tokens, norm)
  }

  function CoverageScore(p: Product, input: Input, tokens: seq<string>, norm: string -> string): int {
    var words := Filter(Split(norm(p.name), IsSpace, []), IsLong);
    var covered := |Filter(words, IsIntended(input, tokens, norm))|;
    if |words| == 0 || covered == 0 then 0 else Round(60.0 * covered as real / |words| as real)
  }

  predicate HasVehicleInput(input: Input) { |input.vehicleIds| > 0 || Given(input.vehicleName) }

  predicate BrandSpoken(input: Input) { Given(input.brandId) || Given(input.brandName) }

  function ComputeConfidence(part: bool, vehicle: bool, brand: bool, hasVehicleInput: bool): int {
    var c := (if part then 45 else 0)
             + (if hasVehicleInput then (if vehicle then 40 else 0) else 15)
             + (if brand then 15 else 0);
    if c > 100 then 100 else c
  }

  function ScoreCandidate(p: Product, input: Input, tokens: seq<string>, norm: string -> string): Scored {
    var part := PartSignal(p, input, tokens, norm);
    var vehicle := VehicleSignal(p, input, norm);
    var brand := BrandSignal(p, input, norm);
    var score := part.score + vehicle.score + brand.score
                 + DescriptionScore(norm(p.description), tokens)
                 + PlaceScores(p, input, tokens, norm) + CoverageScore(p, input, tokens, norm);
    var confidence := if OtherVehicle(p, input) then 0
                      else ComputeConfidence(part.matched, vehicle.matched, brand.matched, HasVehicleInput(input));
    Scored(p, score,
           if Contradicts(p, input, tokens, norm) then Max(0, confidence - 40) else confidence,
           part.matched, vehicle.matched, brand.matched, OtherVehicle(p, input))
  }

  // ---------- spreading the confidences ----------

  function BestScore(list: seq<Scored>): int
    requires list != []
  {
    if |list| == 1 then list[0].score else Max(list[0].score, BestScore(list[1..]))
  }

  function Spread(c: Scored, bestScore: int): Scored
    requires bestScore > 0
  {
    var shortfall := 1.0 - c.score as real / bestScore as real;
    c.(confidence := Max(0, Round(c.confidence as real - shortfall * 45.0)))
  }

  function Spreader(bestScore: int): Scored -> Scored
    requires bestScore > 0
  {
    (c: Scored) => Spread(c, bestScore)
  }

  function Relative(list: seq<Scored>): seq<Scored> {
    if |list| < 2 || BestScore(list) <= 0 then list else Map(list, Spreader(BestScore(list)))
  }

  lemma {:induction false} MapByElements(s: seq<Scored>, t: seq<Scored>, f: Scored -> Scored)
    requires |s| == |t| && forall i | 0 <= i < |s| :: t[i] == f(s[i])
    ensures t == Map(s, f)
  {
    if s != [] {
      MapByElements(s[1..], t[1..], f);
      assert t == [t[0]] + t[1..];
    }
  }

  /** Rewrites the confidences in place. */
  method ApplyRelativeConfidence(list: array<Scored>)
    modifies list
    ensures list[..] == Relative(old(list[..]))
  {
    if list.Length < 2 { return; }
    ghost var before := list[..];
    var bestScore := BestScore(list[..]);
    if bestScore <= 0 { return; }
    for i := 0 to list.Length
      invariant forall j | 0 <= j < i :: list[j] == Spread(before[j], bestScore)
      invariant forall j | i <= j < list.Length :: list[j] == before[j]
    {
      list[i] := Spread(list[i], bestScore);
    }
    MapByElements(before, list[..], Spreader(bestScore));
  }

  // ---------- the decision ----------

  predicate InRace(c: Scored) { !c.disqualified }

  predicate WorthShowing(c: Scored) { c.confidence >= 15 }

  predicate NotBehind(a: Scored, b: Scored) {
    a.confidence > b.confidence || (a.confidence == b.confidence && a.score >= b.score)
  }

  /** The spoken keywords, normalised, without short and empty words. */
  function Tokens(input: Input, norm: string -> string): seq<string> { Filter(Map(input.keywords, norm), Means) }

  function Scorer(input: Input, norm: string -> string): Product -> Scored {
    (p: Product) => ScoreCandidate(p, input, Tokens(input, norm), norm)
  }

  function Race(candidates: seq<Product>, input: Input, norm: string -> string): seq<Scored> {
    Filter(Map(candidates, Scorer(input, norm)), InRace)
  }

  function Ranked(candidates: seq<Product>, input: Input, norm: string -> string): seq<Scored> {
    SortBy(Filter(Relative(Race(candidates, input, norm)), WorthShowing), NotBehind)
  }

  function MaxAchievable(input: Input): int {
    45 + (if HasVehicleInput(input) then 40 else 15) + (if BrandSpoken(input) then 15 else 0)
  }

  function RequiredMargin(input: Input): int { if input.modelIsExplicit then 15 else 25 }

  predicate Confirms(autoConfirm: bool, input: Input, ranked: seq<Scored>)
    requires ranked != []
  {
    && autoConfirm
    && ranked[0].partMatched
    && (HasVehicleInput(input) ==> ranked[0].vehicleMatched)
    && ranked[0].confidence >= MaxAchievable(input)
    && (|ranked| > 1 ==> ranked[0].confidence - ranked[1].confidence >= RequiredMargin(input))
  }

  function FirstFive(ranked: seq<Scored>): seq<Scored> { if |ranked| <= 5 then ranked else ranked[..5] }

  function Match(autoConfirm: bool, candidates: seq<Product>, input: Input, norm: string -> string): Verdict {
    Decide(autoConfirm, input, Ranked(candidates, input, norm))
  }

  function Decide(autoConfirm: bool, input: Input, ranked: seq<Scored>): Verdict {
    if ranked == [] then Nothing
    else if Confirms(autoConfirm, input, ranked) then Auto(ranked[0], FirstFive(ranked))
    else Suggest(FirstFive(ranked))
  }

  // ---------- what was asked for, and what a product has of it ----------

  /** The name and the catalog's name contain one another, or it is one of the other names. */
  ghost predicate KnownAs(entry: Option<Entry>, spoken: string, norm: string -> string) {
    && entry.Some?
    && (|| (norm(entry.value.name) != ""
            && (Includes(norm(entry.value.name), spoken) || Includes(spoken, norm(entry.value.name))))
        || exists i :: 0 <= i < |entry.value.aliases| && norm(entry.value.aliases[i]) == spoken)
  }

  /** A word of the text that is neither short nor empty of meaning. */
  ghost predicate SpokenIn(w: string, text: string) { w in Split(text, IsSpace, []) && |w| >= 2 && w !in STOPWORDS }

  ghost predicate IsToken(w: string, input: Input, norm: string -> string) {
    exists k :: k in input.keywords && w == norm(k) && |w| >= 2 && w !in STOPWORDS
  }

  /** The word stands in the name right after "without". */
  ghost predicate AfterWithout(name: string, w: string) {
    var words := Split(name, IsSeparator, []);
    exists i :: 0 < i < |words| && words[i - 1] == "بدون" && words[i] == w
  }

  /** The name has the word as that of a part: it is no place, and the part does not come without it. */
  ghost predicate NamesPart(name: string, w: string) {
    w != "جلو" && w != "عقب" && w != "چپ" && w != "راست" && Includes(name, w) && !AfterWithout(name, w)
  }

  ghost predicate MatchesPart(p: Product, input: Input, norm: string -> string) {
    || (input.partId.Some? && input.partId.value != "" && p.partId == input.partId)
    || (input.partName.Some? && input.partName.value != ""
        && (|| KnownAs(p.part, norm(input.partName.value), norm)
            || exists w :: SpokenIn(w, norm(input.partName.value)) && NamesPart(norm(p.name), w)))
    || exists w :: IsToken(w, input, norm) && NamesPart(norm(p.name), w)
  }

  ghost predicate MatchesVehicle(p: Product, input: Input, norm: string -> string) {
    || (p.vehicleId.Some? && p.vehicleId.value != "" && p.vehicleId.value in input.vehicleIds)
    || (input.vehicleName.Some? && input.vehicleName.value != ""
        && (|| (input.vehicleIds == [] && KnownAs(p.vehicle, norm(input.vehicleName.value), norm))
            || exists w :: SpokenIn(w, norm(input.vehicleName.value)) && Includes(norm(p.name), w)))
  }

  ghost predicate MatchesBrand(p: Product, input: Input, norm: string -> string) {
    || (input.brandId.Some? && input.brandId.value != "" && p.brandId == input.brandId)
    || (input.brandName.Some? && input.brandName.value != "" && KnownAs(p.brand, norm(input.brandName.value), norm))
  }

  /** The vehicle's models are known, and the product is for one that is none of them. */
  ghost predicate ForOtherVehicle(p: Product, input: Input) {
    input.vehicleIds != [] && p.vehicleId.Some? && p.vehicleId.value != "" && p.vehicleId.value !in input.vehicleIds
  }

  ghost predicate AsksFor(w: string, input: Input, norm: string -> string) {
    || IsToken(w, input, norm)
    || (input.partName.Some? && input.partName.value != "" && SpokenIn(w, norm(input.partName.value)))
  }

  /** One place is asked for, and the name has the other one instead. */
  ghost predicate HasOtherPlace(asked: string, other: string, p: Product, input: Input, norm: string -> string) {
    AsksFor(asked, input, norm) && !Includes(norm(p.name), asked) && Includes(norm(p.name), other)
  }

  ghost predicate InWrongPlace(p: Product, input: Input, norm: string -> string) {
    || HasOtherPlace("جلو", "عقب", p, input, norm) || HasOtherPlace("عقب", "جلو", p, input, norm)
    || HasOtherPlace("چپ", "راست", p, input, norm) || HasOtherPlace("راست", "چپ", p, input, norm)
  }

  ghost predicate AsksForVehicle(input: Input) {
    input.vehicleIds != [] || (input.vehicleName.Some? && input.vehicleName.value != "")
  }

  ghost predicate AsksForBrand(input: Input) {
    (input.brandId.Some? && input.brandId.value != "") || (input.brandName.Some? && input.brandName.value != "")
  }

  /** Everything that was spoken matched, and nothing contradicts. */
  ghost predicate FullMatch(p: Product, input: Input, norm: string -> string) {
    && MatchesPart(p, input, norm) && !ForOtherVehicle(p, input) && !InWrongPlace(p, input, norm)
    && (AsksForVehicle(input) ==> MatchesVehicle(p, input, norm))
    && (AsksForBrand(input) ==> MatchesBrand(p, input, norm))
  }

  /** The confidence that the spoken words can give at most, and the margin that a confirmation takes. */
  ghost function Full(input: Input): int {
    45 + (if AsksForVehicle(input) then 40 else 15) + (if AsksForBrand(input) then 15 else 0)
  }

  ghost function Lead(input: Input): int { if input.modelIsExplicit then 15 else 25 }

  lemma {:induction false} LimitsAre(input: Input)
    ensures MaxAchievable(input) == Full(input) && RequiredMargin(input) == Lead(input)
    ensures HasVehicleInput(input) <==> AsksForVehicle(input)
    ensures BrandSpoken(input) <==> AsksForBrand(input)
  {
  }

  // ---------- the signals are what was asked for ----------

  lemma {:induction false} TokensAre(input: Input, norm: string -> string, w: string)
    ensures w in Tokens(input, norm) <==> IsToken(w, input, norm)
  {
    var all := Map(input.keywords, norm);
    FilterMembers(all, Means, w);
    if w in all {
      var i :| 0 <= i < |all| && all[i] == w;
      MapMembers(input.keywords, norm, i);
      assert input.keywords[i] in input.keywords;
    }
    if k :| k in input.keywords && w == norm(k) {
      var i :| 0 <= i < |input.keywords| && input.keywords[i] == k;
      MapLength(input.keywords, norm);
      MapMembers(input.keywords, norm, i);
    }
  }

  lemma {:induction false} ContentWordsAre(text: string, w: string)
    ensures w in ContentWords(text) <==> SpokenIn(w, text)
  {
    FilterMembers(Split(text, IsSpace, []), Means, w);
  }

  lemma {:induction false} IntendedIff(w: string, input: Input, norm: string -> string)
    ensures Intended(w, input, Tokens(input, norm), norm) <==> AsksFor(w, input, norm)
  {
    TokensAre(input, norm, w);
    if Given(input.partName) { ContentWordsAre(norm(input.partName.value), w); }
  }

  lemma {:induction false} NegatedIff(words: seq<string>, w: string)
    ensures w in Negated(words) <==> exists i :: 0 < i < |words| && words[i - 1] == "بدون" && words[i] == w
  {
    if |words| >= 2 {
      NegatedIff(words[1..], w);
      if i :| 0 < i < |words[1..]| && words[1..][i - 1] == "بدون" && words[1..][i] == w {
        assert words[i + 1 - 1] == "بدون" && words[i + 1] == w;
      }
      if i :| 0 < i < |words| && words[i - 1] == "بدون" && words[i] == w {
        if i > 1 { assert words[1..][i - 1 - 1] == "بدون" && words[1..][i - 1] == w; }
      }
    }
  }

  lemma {:induction false} HitsNameIff(name: string, w: string)
    ensures !IsPlace(w) && HitsName(name, w) <==> NamesPart(name, w)
  {
    NegatedIff(Split(name, IsSeparator, []), w);
  }

  /** How many of the words that mean something name the part, repetitions counted. */
  ghost function Naming(name: string, words: seq<string>): nat {
    if words == [] then 0
    else (if |words[0]| >= 2 && words[0] !in STOPWORDS && NamesPart(name, words[0]) then 1 else 0)
         + Naming(name, words[1..])
  }

  lemma {:induction false} PartHitsCount(name: string, words: seq<string>)
    ensures PartHits(name, Filter(words, Means)) == Naming(name, words)
  {
    if words != [] {
      PartHitsCount(name, words[1..]);
      HitsNameIff(name, words[0]);
      FilterCons(words, Means);
      if Means(words[0]) { PartHitsCons(name, words[0], Filter(words[1..], Means)); }
    }
  }

  lemma {:induction false} FilterCons(words: seq<string>, keep: string -> bool)
    requires words != []
    ensures Filter(words, keep) == if keep(words[0]) then [words[0]] + Filter(words[1..], keep)
                                   else Filter(words[1..], keep)
  {
  }

  lemma {:induction false} PartHitsCons(name: string, w: string, words: seq<string>)
    ensures PartHits(name, [w] + words) == (if !IsPlace(w) && HitsName(name, w) then 1 else 0) + PartHits(name, words)
  {
    assert ([w] + words)[1..] == words;
  }

  lemma {:induction false} NamingIff(name: string, words: seq<string>)
    ensures Naming(name, words) > 0
            <==> exists w :: w in words && |w| >= 2 && w !in STOPWORDS && NamesPart(name, w)
  {
    if words != [] {
      NamingIff(name, words[1..]);
      assert words == [words[0]] + words[1..];
      assert words[0] in words;
    }
  }

  /** The words of the spoken part name, and the normalised keywords. */
  ghost function PartNameWords(input: Input, norm: string -> string): seq<string> {
    if input.partName.Some? && input.partName.value != "" then Split(norm(input.partName.value), IsSpace, []) else []
  }

  lemma {:induction false} PartNameNames(p: Product, input: Input, norm: string -> string)
    ensures PartHits(norm(p.name), PartWords(input, norm)) == Naming(norm(p.name), PartNameWords(input, norm))
    ensures Naming(norm(p.name), PartNameWords(input, norm)) > 0
            <==> && input.partName.Some? && input.partName.value != ""
                 && exists w :: SpokenIn(w, norm(input.partName.value)) && NamesPart(norm(p.name), w)
  {
    PartHitsCount(norm(p.name), PartNameWords(input, norm));
    NamingIff(norm(p.name), PartNameWords(input, norm));
    assert Filter([], Means) == [];
    if Given(input.partName) {
      if w :| w in PartNameWords(input, norm) && |w| >= 2 && w !in STOPWORDS && NamesPart(norm(p.name), w) {
        assert SpokenIn(w, norm(input.partName.value));
      }
    }
  }

  lemma {:induction false} KeywordsName(p: Product, input: Input, norm: string -> string)
    ensures PartHits(norm(p.name), Tokens(input, norm)) == Naming(norm(p.name), Map(input.keywords, norm))
    ensures Naming(norm(p.name), Map(input.keywords, norm)) > 0
            <==> exists w :: IsToken(w, input, norm) && NamesPart(norm(p.name), w)
  {
    var words := Map(input.keywords, norm);
    PartHitsCount(norm(p.name), words);
    NamingIff(norm(p.name), words);
    forall w ensures w in words && |w| >= 2 && w !in STOPWORDS <==> IsToken(w, input, norm) {
      TokensAre(input, norm, w);
      FilterMembers(words, Means, w);
    }
  }

  lemma {:induction false} CatalogIff(p: Product, input: Input, norm: string -> string)
    ensures CatalogSignal(p, input, norm).matched
            <==> || (input.partId.Some? && input.partId.value != "" && p.partId == input.partId)
                 || (input.partName.Some? && input.partName.value != ""
                     && KnownAs(p.part, norm(input.partName.value), norm))
  {
  }

  lemma {:induction false} PartSignalIff(p: Product, input: Input, norm: string -> string)
    ensures PartSignal(p, input, Tokens(input, norm), norm).matched <==> MatchesPart(p, input, norm)
  {
    PartNameNames(p, input, norm);
    KeywordsName(p, input, norm);
    CatalogIff(p, input, norm);
  }

  lemma {:induction false} VehicleSignalIff(p: Product, input: Input, norm: string -> string)
    ensures VehicleSignal(p, input, norm).matched <==> MatchesVehicle(p, input, norm)
  {
    if Given(input.vehicleName) {
      var text := norm(input.vehicleName.value);
      forall w ensures w in ContentWords(text) <==> SpokenIn(w, text) { ContentWordsAre(text, w); }
    }
  }

  lemma {:induction false} ContradictsIff(p: Product, input: Input, norm: string -> string)
    ensures Contradicts(p, input, Tokens(input, norm), norm) <==> InWrongPlace(p, input, norm)
  {
    IntendedIff("جلو", input, norm);
    IntendedIff("عقب", input, norm);
    IntendedIff("چپ", input, norm);
    IntendedIff("راست", input, norm);
  }

  /** A candidate with what its flags mean, and the confidence that they give. */
  lemma {:induction false} CandidateIs(p: Product, input: Input, norm: string -> string)
    ensures var c := ScoreCandidate(p, input, Tokens(input, norm), norm);
      && c.product == p
      && (c.partMatched <==> MatchesPart(p, input, norm))
      && (c.vehicleMatched <==> MatchesVehicle(p, input, norm))
      && (c.brandMatched <==> MatchesBrand(p, input, norm))
      && (c.disqualified <==> ForOtherVehicle(p, input))
      && var plain := (if MatchesPart(p, input, norm) then 45 else 0)
                      + (if !AsksForVehicle(input) then 15 else if MatchesVehicle(p, input, norm) then 40 else 0)
                      + (if MatchesBrand(p, input, norm) then 15 else 0);
         c.confidence == if ForOtherVehicle(p, input) then 0
                         else if !InWrongPlace(p, input, norm) then plain
                         else if plain >= 40 then plain - 40 else 0
  {
    PartSignalIff(p, input, norm);
    VehicleSignalIff(p, input, norm);
    ContradictsIff(p, input, norm);
    LimitsAre(input);
  }

  // ---------- what a confidence says ----------

  /**
   * A candidate's own confidence stays within what the spoken words can give,
   * and reaches it exactly if everything spoken matched and nothing contradicts.
   */
  lemma {:induction false} FullConfidence(p: Product, input: Input, norm: string -> string)
    ensures var c := ScoreCandidate(p, input, Tokens(input, norm), norm);
      0 <= c.confidence <= Full(input) && (c.confidence == Full(input) <==> FullMatch(p, input, norm))
  {
    CandidateIs(p, input, norm);
  }

  lemma {:induction false} ShortfallIsNonNegative(score: int, best: int)
    requires best > 0 && score <= best
    ensures score as real / best as real <= 1.0
  {
  }

  /** Spreading changes the confidence only, and never upwards. */
  lemma {:induction false} SpreadLowers(c: Scored, bestScore: int)
    requires bestScore > 0 && c.score <= bestScore && c.confidence >= 0
    ensures var d := Spread(c, bestScore);
      d == c.(confidence := d.confidence) && 0 <= d.confidence <= c.confidence
  {
    ShortfallIsNonNegative(c.score, bestScore);
  }

  lemma {:induction false} BestScoreIsMax(list: seq<Scored>)
    requires list != []
    ensures forall c | c in list :: c.score <= BestScore(list)
    ensures exists c :: c in list && c.score == BestScore(list)
  {
    if |list| > 1 {
      BestScoreIsMax(list[1..]);
      assert list == [list[0]] + list[1..];
      assert list[0] in list;
    } else {
      assert list[0] in list;
    }
  }

  /** What every ranked candidate is: a candidate in the race with its confidence not raised. */
  ghost predicate ComesFrom(r: Scored, p: Product, input: Input, norm: string -> string) {
    var c := ScoreCandidate(p, input, Tokens(input, norm), norm);
    r == c.(confidence := r.confidence) && 0 <= r.confidence <= c.confidence && !r.disqualified
  }

  lemma {:induction false} RaceMembers(candidates: seq<Product>, input: Input, norm: string -> string, c: Scored)
    returns (p: Product)
    requires c in Race(candidates, input, norm)
    ensures p in candidates && c == ScoreCandidate(p, input, Tokens(input, norm), norm) && !c.disqualified
  {
    var all := Map(candidates, Scorer(input, norm));
    FilterMembers(all, InRace, c);
    var i :| 0 <= i < |all| && all[i] == c;
    MapMembers(candidates, Scorer(input, norm), i);
    p := candidates[i];
  }

  lemma {:induction false} RankedMembers(candidates: seq<Product>, input: Input, norm: string -> string, r: Scored)
    returns (p: Product)
    requires r in Ranked(candidates, input, norm)
    ensures p in candidates && ComesFrom(r, p, input, norm)
  {
    var race := Race(candidates, input, norm);
    var relative := Relative(race);
    NotBehindIsTotal();
    SortByCorrect(Filter(relative, WorthShowing), NotBehind);
    assert r in multiset(Ranked(candidates, input, norm));
    FilterMembers(relative, WorthShowing, r);
    var i :| 0 <= i < |relative| && relative[i] == r;
    if |race| < 2 || BestScore(race) <= 0 {
      p := RaceMembers(candidates, input, norm, r);
      FullConfidence(p, input, norm);
    } else {
      MapMembers(race, Spreader(BestScore(race)), i);
      p := RaceMembers(candidates, input, norm, race[i]);
      FullConfidence(p, input, norm);
      BestScoreIsMax(race);
      SpreadLowers(race[i], BestScore(race));
    }
  }

  lemma {:induction false} NotBehindIsTotal()
    ensures TotalPreorder(NotBehind)
  {
  }

  /** No ranked confidence exceeds what the spoken words can give. */
  lemma {:induction false} ConfidenceIsBounded(candidates: seq<Product>, input: Input, norm: string -> string,
                                               r: Scored)
    ensures r in Ranked(candidates, input, norm) ==> 15 <= r.confidence <= Full(input)
  {
    if r in Ranked(candidates, input, norm) { RankedIsBounded(candidates, input, norm, r); }
  }

  lemma {:induction false} RankedIsBounded(candidates: seq<Product>, input: Input, norm: string -> string, r: Scored)
    requires r in Ranked(candidates, input, norm)
    ensures 15 <= r.confidence <= Full(input)
  {
    var p := RankedMembers(candidates, input, norm, r);
    FullConfidence(p, input, norm);
    var relative := Relative(Race(candidates, input, norm));
    NotBehindIsTotal();
    SortByCorrect(Filter(relative, WorthShowing), NotBehind);
    assert r in multiset(Ranked(candidates, input, norm));
    FilterMembers(relative, WorthShowing, r);
  }

  lemma {:induction false} RankedIsSorted(candidates: seq<Product>, input: Input, norm: string -> string)
    ensures Sorted(Ranked(candidates, input, norm), NotBehind)
  {
    NotBehindIsTotal();
    SortByCorrect(Filter(Relative(Race(candidates, input, norm)), WorthShowing), NotBehind);
  }

  /**
   * Main result on confirmation: a product is confirmed without asking only if
   * it is a candidate that matched the part and every vehicle and brand that
   * was spoken, with no contradicting place, and leads all others by the margin.
   */
  lemma {:induction false} AutoMeansFullMatch(autoConfirm: bool, candidates: seq<Product>, input: Input,
                                              norm: string -> string)
    ensures var ranked := Ranked(candidates, input, norm);
      match Match(autoConfirm, candidates, input, norm)
      case Auto(best, _) =>
        && autoConfirm && best.product in candidates && FullMatch(best.product, input, norm)
        && best.confidence == Full(input)
        && ranked != [] && best == ranked[0]
        && forall i | 1 <= i < |ranked| :: ranked[i].confidence <= best.confidence - Lead(input)
      case _ => true
  {
    var ranked := Ranked(candidates, input, norm);
    LimitsAre(input);
    if ranked != [] && Confirms(autoConfirm, input, ranked) {
      var p := RankedMembers(candidates, input, norm, ranked[0]);
      FullConfidence(p, input, norm);
      RankedIsSorted(candidates, input, norm);
      forall i | 1 <= i < |ranked| ensures ranked[i].confidence <= ranked[0].confidence - Lead(input) {
        assert i == 1 || NotBehind(ranked[1], ranked[i]);
      }
    }
  }

  /** Of the candidates in the race, one has the full confidence and all others are behind by the margin. */
  ghost predicate Leads(relative: seq<Scored>, input: Input, i: nat)
    requires i < |relative|
  {
    && relative[i].confidence == Full(input)
    && forall j | 0 <= j < |relative| && j != i :: relative[j].confidence <= Full(input) - Lead(input)
  }

  lemma {:induction false} FilterStep<T>(s: seq<T>, keep: T -> bool)
    requires s != []
    ensures multiset(Filter(s, keep))
            == (if keep(s[0]) then multiset{s[0]} else multiset{}) + multiset(Filter(s[1..], keep))
  {
  }

  lemma {:induction false} FilterIsPart<T>(s: seq<T>, keep: T -> bool)
    ensures multiset(Filter(s, keep)) <= multiset(s)
  {
    if s != [] {
      FilterStep(s, keep);
      FilterIsPart(s[1..], keep);
      assert s == [s[0]] + s[1..];
    }
  }

  lemma {:induction false} OneIsKept<T>(s: seq<T>, keep: T -> bool, j: nat)
    requires j < |s| && keep(s[j])
    ensures s[j] in multiset(Filter(s, keep))
  {
    FilterStep(s, keep);
    if j > 0 { OneIsKept(s[1..], keep, j - 1); }
  }

  /** Filtering takes a kept position out of its place and leaves the two sides. */
  lemma {:induction false} FilterAround<T>(s: seq<T>, keep: T -> bool, i: nat)
    requires i < |s| && keep(s[i])
    ensures multiset(Filter(s, keep)) - multiset{s[i]}
            == multiset(Filter(s[..i], keep)) + multiset(Filter(s[i + 1..], keep))
  {
    var a, b := s[..i], s[i + 1..];
    assert s == a + ([s[i]] + b);
    FilterConcat(a, [s[i]] + b, keep);
    FilterStep([s[i]] + b, keep);
    assert ([s[i]] + b)[1..] == b;
  }

  /** Another kept position is still there without the one. */
  lemma {:induction false} OtherIsKept<T>(s: seq<T>, keep: T -> bool, i: nat, j: nat)
    requires i < |s| && j < |s| && i != j && keep(s[i]) && keep(s[j])
    ensures s[j] in multiset(Filter(s, keep)) - multiset{s[i]}
  {
    FilterAround(s, keep, i);
    if j < i {
      assert s[..i][j] == s[j];
      FilterMembers(s[..i], keep, s[j]);
    } else {
      assert s[i + 1..][j - i - 1] == s[j];
      FilterMembers(s[i + 1..], keep, s[j]);
    }
  }

  /** What is left over once one position is taken out stands at another position. */
  lemma {:induction false} OtherPosition<T>(s: seq<T>, i: nat, x: T) returns (j: nat)
    requires i < |s| && x in multiset(s) - multiset{s[i]}
    ensures j < |s| && j != i && s[j] == x
  {
    assert s == s[..i] + [s[i]] + s[i + 1..];
    if x in s[..i] {
      j :| 0 <= j < i && s[..i][j] == x;
    } else {
      assert x in s[i + 1..];
      var k :| 0 <= k < |s[i + 1..]| && s[i + 1..][k] == x;
      j := i + 1 + k;
    }
  }

  lemma {:induction false} MarginBounds(input: Input)
    ensures 0 < Lead(input) && 15 <= Full(input) - Lead(input)
  {
  }

  /** What is ranked after the first. */
  lemma {:induction false} RankedAfterFirst(ranked: seq<Scored>, x: Scored)
    requires ranked != [] && Sorted(ranked, NotBehind)
    requires x in multiset(ranked) - multiset{ranked[0]}
    ensures |ranked| > 1 && x.confidence <= ranked[1].confidence
  {
    var k := OtherPosition(ranked, 0, x);
    assert k == 1 || NotBehind(ranked[1], ranked[k]);
  }

  /** The confirmed candidate leads the race. */
  lemma {:induction false} ConfirmedLeads(relative: seq<Scored>, ranked: seq<Scored>, input: Input) returns (i: nat)
    requires multiset(ranked) == multiset(Filter(relative, WorthShowing)) && Sorted(ranked, NotBehind)
    requires ranked != [] && ranked[0].confidence == Full(input)
    requires |ranked| > 1 ==> ranked[0].confidence - ranked[1].confidence >= Lead(input)
    ensures i < |relative| && relative[i] == ranked[0] && Leads(relative, input, i)
  {
    MarginBounds(input);
    assert ranked[0] in multiset(ranked);
    FilterMembers(relative, WorthShowing, ranked[0]);
    i :| 0 <= i < |relative| && relative[i] == ranked[0];
    forall j | 0 <= j < |relative| && j != i
      ensures relative[j].confidence <= Full(input) - Lead(input) {
      if relative[j].confidence >= 15 {
        OtherIsKept(relative, WorthShowing, i, j);
        RankedAfterFirst(ranked, relative[j]);
      }
    }
  }

  /** A leader of the race comes first in the ranking, by the margin. */
  lemma {:induction false} LeaderIsFirst(relative: seq<Scored>, ranked: seq<Scored>, input: Input, i: nat)
    requires multiset(ranked) == multiset(Filter(relative, WorthShowing)) && Sorted(ranked, NotBehind)
    requires i < |relative| && Leads(relative, input, i)
    ensures ranked != [] && ranked[0] == relative[i]
    ensures |ranked| > 1 ==> ranked[0].confidence - ranked[1].confidence >= Lead(input)
  {
    MarginBounds(input);
    FilterIsPart(relative, WorthShowing);
    OneIsKept(relative, WorthShowing, i);
    var k :| 0 <= k < |ranked| && ranked[k] == relative[i];
    assert ranked[0] in multiset(ranked);
    var j :| 0 <= j < |relative| && relative[j] == ranked[0];
    assert k == 0 || NotBehind(ranked[0], ranked[k]);
    if |ranked| > 1 {
      assert ranked == [ranked[0]] + [ranked[1]] + ranked[2..];
      var l := OtherPosition(relative, i, ranked[1]);
    }
  }

  lemma {:induction false} RankedIsRelative(candidates: seq<Product>, input: Input, norm: string -> string)
    ensures Sorted(Ranked(candidates, input, norm), NotBehind)
    ensures multiset(Ranked(candidates, input, norm))
            == multiset(Filter(Relative(Race(candidates, input, norm)), WorthShowing))
  {
    NotBehindIsTotal();
    SortByCorrect(Filter(Relative(Race(candidates, input, norm)), WorthShowing), NotBehind);
  }

  /** A first candidate with the full confidence, ahead by the margin, is confirmed. */
  lemma {:induction false} FirstIsConfirmed(autoConfirm: bool, input: Input, ranked: seq<Scored>)
    requires autoConfirm && ranked != [] && ranked[0].confidence == Full(input) && ranked[0].partMatched
    requires AsksForVehicle(input) ==> ranked[0].vehicleMatched
    requires |ranked| > 1 ==> ranked[0].confidence - ranked[1].confidence >= Lead(input)
    ensures Decide(autoConfirm, input, ranked).Auto? && Decide(autoConfirm, input, ranked).best == ranked[0]
  {
    LimitsAre(input);
  }

  lemma {:induction false} LeaderIsConfirmed(autoConfirm: bool, candidates: seq<Product>, input: Input,
                                             norm: string -> string, i: nat)
    requires i < |Relative(Race(candidates, input, norm))| && Leads(Relative(Race(candidates, input, norm)), input, i)
    ensures var leader := Relative(Race(candidates, input, norm))[i];
      && FullMatch(leader.product, input, norm)
      && (autoConfirm ==> Match(autoConfirm, candidates, input, norm).Auto?
                          && Match(autoConfirm, candidates, input, norm).best == leader)
  {
    var ranked := Ranked(candidates, input, norm);
    RankedIsRelative(candidates, input, norm);
    LeaderIsFirst(Relative(Race(candidates, input, norm)), ranked, input, i);
    FullConfidenceMeansFullMatch(candidates, input, norm, ranked[0]);
    if autoConfirm { FirstIsConfirmed(autoConfirm, input, ranked); }
  }

  /**
   * Main result on confirmation, for all candidates: one is confirmed exactly
   * if confirmation is on and one candidate of the race keeps the full
   * confidence while all others stay behind it by the margin; and it has the
   * full confidence only on a full match.
   */
  lemma {:induction false} ConfirmedIff(autoConfirm: bool, candidates: seq<Product>, input: Input,
                                        norm: string -> string)
    ensures var relative := Relative(Race(candidates, input, norm));
      && (Match(autoConfirm, candidates, input, norm).Auto?
          <==> autoConfirm && exists i :: 0 <= i < |relative| && Leads(relative, input, i))
      && forall i | 0 <= i < |relative| && Leads(relative, input, i) ::
           FullMatch(relative[i].product, input, norm)
           && (autoConfirm ==> Match(autoConfirm, candidates, input, norm).best == relative[i])
  {
    var relative := Relative(Race(candidates, input, norm));
    if Match(autoConfirm, candidates, input, norm).Auto? {
      AutoMeansFullMatch(autoConfirm, candidates, input, norm);
      RankedIsRelative(candidates, input, norm);
      var i := ConfirmedLeads(relative, Ranked(candidates, input, norm), input);
    }
    forall i | 0 <= i < |relative| && Leads(relative, input, i)
      ensures FullMatch(relative[i].product, input, norm)
              && (autoConfirm ==> Match(autoConfirm, candidates, input, norm).Auto?
                                  && Match(autoConfirm, candidates, input, norm).best == relative[i]) {
      LeaderIsConfirmed(autoConfirm, candidates, input, norm, i);
    }
  }

  lemma {:induction false} FullConfidenceMeansFullMatch(candidates: seq<Product>, input: Input, norm: string -> string,
                                                        r: Scored)
    requires r in Ranked(candidates, input, norm) && r.confidence == Full(input)
    ensures FullMatch(r.product, input, norm) && r.partMatched && (AsksForVehicle(input) ==> r.vehicleMatched)
  {
    var p := RankedMembers(candidates, input, norm, r);
    FullConfidence(p, input, norm);
    CandidateIs(p, input, norm);
  }

  lemma {:induction false} SoleCandidateRace(p: Product, input: Input, norm: string -> string)
    ensures var c := ScoreCandidate(p, input, Tokens(input, norm), norm);
      Relative(Race([p], input, norm)) == if c.disqualified then [] else [c]
  {
    MapOne(p, Scorer(input, norm));
    var c := ScoreCandidate(p, input, Tokens(input, norm), norm);
    FilterOne(c);
  }

  lemma {:induction false} MapOne(p: Product, f: Product -> Scored)
    ensures Map([p], f) == [f(p)]
  {
    assert [p][1..] == [] && [f(p)] + [] == [f(p)];
  }

  lemma {:induction false} FilterOne(c: Scored)
    ensures Filter([c], InRace) == if c.disqualified then [] else [c]
  {
    assert [c][1..] == [] && [c] + [] == [c];
  }

  /** So a candidate without rivals is confirmed exactly if everything spoken matched and nothing contradicts. */
  lemma {:induction false} SoleCandidateConfirmedIff(autoConfirm: bool, p: Product, input: Input,
                                                     norm: string -> string)
    ensures Match(autoConfirm, [p], input, norm).Auto?
            <==> autoConfirm && FullMatch(p, input, norm)
  {
    var c := ScoreCandidate(p, input, Tokens(input, norm), norm);
    ConfirmedIff(autoConfirm, [p], input, norm);
    SoleCandidateRace(p, input, norm);
    FullConfidence(p, input, norm);
    if FullMatch(p, input, norm) { assert Leads([c], input, 0); }
  }

  // ---------- the race, the spread and the ranking ----------

  /** The race is run by the candidates that are not for another vehicle. */
  lemma {:induction false} RaceIs(candidates: seq<Product>, input: Input, norm: string -> string, c: Scored)
    ensures c in Race(candidates, input, norm)
            <==> exists p :: p in candidates && !ForOtherVehicle(p, input)
                             && c == ScoreCandidate(p, input, Tokens(input, norm), norm)
  {
    var all := Map(candidates, Scorer(input, norm));
    if c in Race(candidates, input, norm) {
      var p := RaceMembers(candidates, input, norm, c);
      CandidateIs(p, input, norm);
    }
    if p :| p in candidates && !ForOtherVehicle(p, input) && c == ScoreCandidate(p, input, Tokens(input, norm), norm) {
      var i :| 0 <= i < |candidates| && candidates[i] == p;
      MapLength(candidates, Scorer(input, norm));
      MapMembers(candidates, Scorer(input, norm), i);
      FilterMembers(all, InRace, c);
    }
  }

  /**
   * Among two or more, with some score above zero, a candidate loses 45 times
   * its share of shortfall from the best score, rounded to the nearest whole
   * number and never below zero; everything else stays.
   */
  lemma {:induction false} RelativeIs(list: seq<Scored>, i: nat, best: Scored)
    requires i < |list| && best in list && forall c | c in list :: c.score <= best.score
    ensures |Relative(list)| == |list|
    ensures var c, d := list[i], Relative(list)[i];
      if |list| == 1 || best.score <= 0 then d == c
      else
        var exact := c.confidence as real - 45.0 * (1.0 - c.score as real / best.score as real);
        && d == c.(confidence := d.confidence)
        && d.confidence >= 0
        && (d.confidence > 0 ==> exact - 0.5 < d.confidence as real <= exact + 0.5)
        && (d.confidence == 0 ==> exact < 0.5)
  {
    BestScoreIsMax(list);
    assert best.score == BestScore(list);
    if |list| >= 2 && best.score > 0 {
      MapLength(list, Spreader(BestScore(list)));
      MapMembers(list, Spreader(BestScore(list)), i);
    }
  }

  /** Ranked are those with a confidence of at least 15, by confidence and then by score. */
  lemma {:induction false} RankingIs(candidates: seq<Product>, input: Input, norm: string -> string, r: Scored)
    ensures var ranked := Ranked(candidates, input, norm);
      && (r in ranked <==> r in Relative(Race(candidates, input, norm)) && r.confidence >= 15)
      && forall i, j | 0 <= i < j < |ranked| ::
           ranked[i].confidence > ranked[j].confidence
           || (ranked[i].confidence == ranked[j].confidence && ranked[i].score >= ranked[j].score)
  {
    var ranked, relative := Ranked(candidates, input, norm), Relative(Race(candidates, input, norm));
    RankedIsRelative(candidates, input, norm);
    FilterMembers(relative, WorthShowing, r);
    assert r in multiset(ranked) <==> r in multiset(Filter(relative, WorthShowing));
    forall i, j | 0 <= i < j < |ranked|
      ensures ranked[i].confidence > ranked[j].confidence
              || (ranked[i].confidence == ranked[j].confidence && ranked[i].score >= ranked[j].score) {
      assert NotBehind(ranked[i], ranked[j]);
    }
  }

  /** Nothing is answered exactly if nothing is ranked; else the first five are shown, all if they are fewer. */
  lemma {:induction false} SuggestionsAre(autoConfirm: bool, candidates: seq<Product>, input: Input,
                                          norm: string -> string)
    ensures var v, ranked := Match(autoConfirm, candidates, input, norm), Ranked(candidates, input, norm);
      && (v.Nothing? <==> ranked == [])
      && (!v.Nothing? ==>
            && v.suggestions <= ranked
            && |v.suggestions| == if |ranked| < 5 then |ranked| else 5)
  {
  }

  // ---------- the score ----------

  /** The points for a name that a catalog entry is known by. */
  ghost function KnownPoints(entry: Option<Entry>, spoken: string, byName: int, byAlias: int,
                             norm: string -> string): int {
    if entry.None? then 0
    else if norm(entry.value.name) != ""
            && (Includes(norm(entry.value.name), spoken) || Includes(spoken, norm(entry.value.name))) then byName
    else if exists i :: 0 <= i < |entry.value.aliases| && norm(entry.value.aliases[i]) == spoken then byAlias
    else 0
  }

  ghost function CatalogPoints(p: Product, input: Input, norm: string -> string): int {
    if input.partId.Some? && input.partId.value != "" && p.partId == input.partId then 100
    else if input.partName.Some? && input.partName.value != ""
    then KnownPoints(p.part, norm(input.partName.value), 80, 70, norm)
    else 0
  }

  ghost function PartPoints(p: Product, input: Input, norm: string -> string): int {
    var catalog := CatalogPoints(p, input, norm);
    var spoken := Naming(norm(p.name), PartNameWords(input, norm));
    var keyed := if catalog > 0 || spoken > 0 then 0 else Naming(norm(p.name), Map(input.keywords, norm));
    catalog + 45 * (if spoken < 3 then spoken else 3) + 25 * (if keyed < 3 then keyed else 3)
  }

  ghost function VehiclePoints(p: Product, input: Input, norm: string -> string): int {
    var named := input.vehicleName.Some? && input.vehicleName.value != "";
    if input.vehicleIds != [] && p.vehicleId.Some? && p.vehicleId.value != "" && p.vehicleId.value in input.vehicleIds
    then 70
    else if input.vehicleIds == [] && named && KnownAs(p.vehicle, norm(input.vehicleName.value), norm)
    then KnownPoints(p.vehicle, norm(input.vehicleName.value), 60, 55, norm)
    else if named && exists w :: SpokenIn(w, norm(input.vehicleName.value)) && Includes(norm(p.name), w) then 60
    else 0
  }

  ghost function BrandPoints(p: Product, input: Input, norm: string -> string): int {
    if !MatchesBrand(p, input, norm) then 0
    else if input.brandId.Some? && input.brandId.value != "" && p.brandId == input.brandId then 25
    else 20
  }

  ghost function PlacePoints(asked: string, other: string, p: Product, input: Input, norm: string -> string): int {
    if !AsksFor(asked, input, norm) then 0
    else if Includes(norm(p.name), asked) then 20
    else if Includes(norm(p.name), other) then -40
    else 0
  }

  ghost function AllPlacePoints(p: Product, input: Input, norm: string -> string): int {
    PlacePoints("جلو", "عقب", p, input, norm) + PlacePoints("عقب", "جلو", p, input, norm)
    + PlacePoints("چپ", "راست", p, input, norm) + PlacePoints("راست", "چپ", p, input, norm)
  }

  /** How many keywords that mean something stand in the text, repetitions counted. */
  ghost function Described(text: string, words: seq<string>): nat {
    if words == [] then 0
    else (if |words[0]| >= 2 && words[0] !in STOPWORDS && Includes(text, words[0]) then 1 else 0)
         + Described(text, words[1..])
  }

  ghost function Long(words: seq<string>): nat {
    if words == [] then 0 else (if |words[0]| >= 2 then 1 else 0) + Long(words[1..])
  }

  ghost function Covered(words: seq<string>, input: Input, norm: string -> string): nat {
    if words == [] then 0
    else (if |words[0]| >= 2 && AsksFor(words[0], input, norm) then 1 else 0) + Covered(words[1..], input, norm)
  }

  /** Sixty times the share of the name's words that were spoken, to the nearest whole number. */
  ghost function CoveragePoints(p: Product, input: Input, norm: string -> string): int {
    var words := Split(norm(p.name), IsSpace, []);
    if Covered(words, input, norm) == 0 || Long(words) == 0 then 0
    else (60.0 * Covered(words, input, norm) as real / Long(words) as real + 0.5).Floor
  }

  lemma {:induction false} KnownPointsAre(entry: Option<Entry>, spoken: string, byName: int, byAlias: int,
                                          norm: string -> string)
    requires byName > 0 && byAlias > 0
    ensures NameSignal(spoken, entry, byName, byAlias, norm)
            == Signal(KnownAs(entry, spoken, norm), KnownPoints(entry, spoken, byName, byAlias, norm))
    ensures KnownPoints(entry, spoken, byName, byAlias, norm) > 0 <==> KnownAs(entry, spoken, norm)
    ensures KnownPoints(entry, spoken, byName, byAlias, norm) >= 0
  {
  }

  lemma {:induction false} CatalogPointsAre(p: Product, input: Input, norm: string -> string)
    ensures CatalogSignal(p, input, norm).score == CatalogPoints(p, input, norm) >= 0
    ensures CatalogSignal(p, input, norm).matched <==> CatalogPoints(p, input, norm) > 0
  {
    if Given(input.partName) { KnownPointsAre(p.part, norm(input.partName.value), 80, 70, norm); }
  }

  lemma {:induction false} PartPointsAre(p: Product, input: Input, norm: string -> string)
    ensures PartSignal(p, input, Tokens(input, norm), norm).score == PartPoints(p, input, norm)
  {
    PartNameNames(p, input, norm);
    KeywordsName(p, input, norm);
    CatalogPointsAre(p, input, norm);
  }

  lemma {:induction false} VehiclePointsAre(p: Product, input: Input, norm: string -> string)
    ensures VehicleSignal(p, input, norm).score == VehiclePoints(p, input, norm)
  {
    if Given(input.vehicleName) {
      var text := norm(input.vehicleName.value);
      KnownPointsAre(p.vehicle, text, 60, 55, norm);
      forall w ensures w in ContentWords(text) <==> SpokenIn(w, text) { ContentWordsAre(text, w); }
    }
  }

  lemma {:induction false} DescribedAre(text: string, words: seq<string>)
    ensures DescriptionScore(text, Filter(words, Means)) == 5 * Described(text, words)
  {
    if words != [] {
      DescribedAre(text, words[1..]);
      if Means(words[0]) {
        assert ([words[0]] + Filter(words[1..], Means))[1..] == Filter(words[1..], Means);
      } else {
        assert [] + Filter(words[1..], Means) == Filter(words[1..], Means);
      }
    }
  }

  lemma {:induction false} CoverageCounts(words: seq<string>, input: Input, norm: string -> string)
    ensures var long := Filter(words, IsLong);
      && |long| == Long(words)
      && |Filter(long, IsIntended(input, Tokens(input, norm), norm))| == Covered(words, input, norm)
  {
    if words != [] {
      var asked := IsIntended(input, Tokens(input, norm), norm);
      CoverageCounts(words[1..], input, norm);
      IntendedIff(words[0], input, norm);
      if IsLong(words[0]) {
        assert ([words[0]] + Filter(words[1..], IsLong))[1..] == Filter(words[1..], IsLong);
      } else {
        assert [] + Filter(words[1..], IsLong) == Filter(words[1..], IsLong);
      }
    }
  }

  lemma {:induction false} PlacePointsAre(asked: string, other: string, p: Product, input: Input,
                                          norm: string -> string)
    ensures PlaceScore(asked, other, p, input, Tokens(input, norm), norm) == PlacePoints(asked, other, p, input, norm)
  {
    IntendedIff(asked, input, norm);
  }

  lemma {:induction false} AllPlacePointsAre(p: Product, input: Input, norm: string -> string)
    ensures PlaceScores(p, input, Tokens(input, norm), norm) == AllPlacePoints(p, input, norm)
  {
    PlacePointsAre("جلو", "عقب", p, input, norm);
    PlacePointsAre("عقب", "جلو", p, input, norm);
    PlacePointsAre("چپ", "راست", p, input, norm);
    PlacePointsAre("راست", "چپ", p, input, norm);
  }

  lemma {:induction false} BrandPointsAre(p: Product, input: Input, norm: string -> string)
    ensures BrandSignal(p, input, norm).score == BrandPoints(p, input, norm)
  {
    if Given(input.brandName) { KnownPointsAre(p.brand, norm(input.brandName.value), 20, 20, norm); }
  }

  lemma {:induction false} CoveragePointsAre(p: Product, input: Input, norm: string -> string)
    ensures CoverageScore(p, input, Tokens(input, norm), norm) == CoveragePoints(p, input, norm)
  {
    CoverageCounts(Split(norm(p.name), IsSpace, []), input, norm);
  }

  /** What a score is made of. */
  lemma {:induction false} ScoreIs(p: Product, input: Input, norm: string -> string)
    ensures ScoreCandidate(p, input, Tokens(input, norm), norm).score
            == PartPoints(p, input, norm) + VehiclePoints(p, input, norm) + BrandPoints(p, input, norm)
               + 5 * Described(norm(p.description), Map(input.keywords, norm))
               + AllPlacePoints(p, input, norm) + CoveragePoints(p, input, norm)
  {
    PartPointsAre(p, input, norm);
    VehiclePointsAre(p, input, norm);
    BrandPointsAre(p, input, norm);
    DescribedAre(norm(p.description), Map(input.keywords, norm));
    AllPlacePointsAre(p, input, norm);
    CoveragePointsAre(p, input, norm);
  }

  // ---------- the order of the candidates ----------

  lemma {:induction false} RelativePermuted(a: seq<Scored>, b: seq<Scored>)
    requires multiset(a) == multiset(b)
    ensures multiset(Relative(a)) == multiset(Relative(b))
  {
    assert |multiset(a)| == |multiset(b)|;
    if |a| >= 2 {
      BestScoreIsMax(a);
      BestScoreIsMax(b);
      var x :| x in a && x.score == BestScore(a);
      var y :| y in b && y.score == BestScore(b);
      assert x in multiset(b) && y in multiset(a);
      assert BestScore(a) == BestScore(b);
      if BestScore(a) > 0 { MapPermuted(a, b, Spreader(BestScore(a))); }
    }
  }

  lemma {:induction false} RankedPermuted(a: seq<Product>, b: seq<Product>, input: Input, norm: string -> string)
    requires multiset(a) == multiset(b)
    ensures multiset(Ranked(a, input, norm)) == multiset(Ranked(b, input, norm))
  {
    MapPermuted(a, b, Scorer(input, norm));
    FilterPermuted(Map(a, Scorer(input, norm)), Map(b, Scorer(input, norm)), InRace);
    var x, y := Race(a, input, norm), Race(b, input, norm);
    RelativePermuted(x, y);
    FilterPermuted(Relative(x), Relative(y), WorthShowing);
    NotBehindIsTotal();
    SortByCorrect(Filter(Relative(x), WorthShowing), NotBehind);
    SortByCorrect(Filter(Relative(y), WorthShowing), NotBehind);
  }

  lemma {:induction false} SameHeadSameRest(a: seq<Scored>, b: seq<Scored>)
    requires a != [] && b != [] && a[0] == b[0] && multiset(a) == multiset(b)
    ensures multiset(a[1..]) == multiset(b[1..])
  {
    assert a == [a[0]] + a[1..] && b == [b[0]] + b[1..];
    assert multiset(a[1..]) == multiset(a) - multiset{a[0]};
    assert multiset(b[1..]) == multiset(b) - multiset{b[0]};
  }

  /** A clear leader of one ranking is the leader, by the same margin, of every permutation that is a ranking. */
  lemma {:induction false} LeaderIsUnique(a: seq<Scored>, b: seq<Scored>, margin: int)
    requires a != [] && multiset(a) == multiset(b) && margin > 0
    requires Sorted(a, NotBehind) && Sorted(b, NotBehind)
    requires |a| > 1 ==> a[0].confidence - a[1].confidence >= margin
    ensures |a| == |b| && a[0] == b[0]
    ensures |b| > 1 ==> b[0].confidence - b[1].confidence >= margin
  {
    assert |multiset(a)| == |multiset(b)|;
    forall i | 1 <= i < |a| ensures a[i].confidence <= a[0].confidence - margin {
      assert i == 1 || NotBehind(a[1], a[i]);
    }
    assert b[0] in multiset(a) && a[0] in multiset(b);
    var k :| 0 <= k < |b| && b[k] == a[0];
    assert k == 0 || NotBehind(b[0], b[k]);
    var j :| 0 <= j < |a| && a[j] == b[0];
    assert a[0] == b[0];
    if |b| > 1 {
      SameHeadSameRest(a, b);
      assert b[1] in multiset(b[1..]);
      assert b[1] in a[1..];
    }
  }

  /** Main result on order: neither the verdict nor the confirmed product depends on the order of the candidates. */
  lemma {:induction false} OrderIsIrrelevant(autoConfirm: bool, a: seq<Product>, b: seq<Product>, input: Input,
                                             norm: string -> string)
    requires multiset(a) == multiset(b)
    ensures var v, w := Match(autoConfirm, a, input, norm), Match(autoConfirm, b, input, norm);
      && (v.Nothing? <==> w.Nothing?)
      && (v.Auto? <==> w.Auto?)
      && (v.Auto? ==> v.best == w.best)
  {
    var x, y := Ranked(a, input, norm), Ranked(b, input, norm);
    RankedPermuted(a, b, input, norm);
    RankedIsSorted(a, input, norm);
    RankedIsSorted(b, input, norm);
    assert |multiset(x)| == |multiset(y)|;
    if x != [] {
      if Confirms(autoConfirm, input, x) { LeaderIsUnique(x, y, RequiredMargin(input)); }
      if Confirms(autoConfirm, input, y) { LeaderIsUnique(y, x, RequiredMargin(input)); }
    }
  }
}
