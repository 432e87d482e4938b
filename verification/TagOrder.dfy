/** Image tags, how they are parsed, and the order in which a series of tags is sorted. */
module TagOrder {
  import opened Wrappers

  /** In menu order. */
  datatype ImageType = Alias | Release | Weekly | Daily | Candidate | Experimental | Unknown

  const IMAGE_TYPES := [Alias, Release, Weekly, Daily, Candidate, Experimental, Unknown]

  datatype Version = Version(major: nat, minor: nat, patch: nat, pre: Option<string>)

  datatype Tag = Tag(
    name: string,
    imageType: ImageType,
    base: Option<string>,
    version: Option<Version>,
    semantic: bool,
    cycle: Option<nat>,
    cycleBuild: Option<nat>,
    build: Option<nat>,
    architecture: Option<string>,
    extra: Option<string>,
    date: Option<int>)

  // ----- comparing

  /** Strings by code point. */
  function CompareText(a: string, b: string): int {
    if a == [] && b == [] then 0
    else if a == [] then -1
    else if b == [] then 1
    else if a[0] != b[0] then (if a[0] < b[0] then -1 else 1)
    else CompareText(a[1..], b[1..])
  }

  function CompareNat(a: nat, b: nat): int {
    if a == b then 0 else if a < b then -1 else 1
  }

  function Lex(first: int, second: int): int {
    if first != 0 then first else second
  }

  /** `_compare_int` */
  function CompareInt(a: Option<nat>, b: Option<nat>): int {
    match (a, b)
    case (None, None) => 0
    case (None, _) => -1
    case (_, None) => 1
    case (Some(x), Some(y)) => CompareNat(x, y)
  }

  /** `_compare_str` */
  function CompareStr(a: Option<string>, b: Option<string>, noneLast: bool): int {
    match (a, b)
    case (None, None) => 0
    case (None, _) => if noneLast then 1 else -1
    case (_, None) => if noneLast then -1 else 1
    case (Some(x), Some(y)) => CompareText(x, y)
  }

  /** Semantic versions: a prerelease comes before the release itself. */
  function CompareVersion(a: Version, b: Version): int {
    Lex(CompareNat(a.major, b.major),
    Lex(CompareNat(a.minor, b.minor),
    Lex(CompareNat(a.patch, b.patch),
        CompareStr(a.pre, b.pre, true))))
  }

  function CompareHead(a: Tag, b: Tag): int {
    if a.version.Some? && b.version.Some? then CompareVersion(a.version.value, b.version.value)
    else CompareStr(a.base, b.base, false)
  }

  /** `_compare`, for two tags of one type. */
  function Compare(a: Tag, b: Tag): int {
    Lex(CompareHead(a, b),
    Lex(CompareInt(a.cycle, b.cycle),
    Lex(CompareInt(a.cycleBuild, b.cycleBuild),
    Lex(CompareInt(a.build, b.build),
    Lex(CompareStr(a.extra, b.extra, false),
        CompareStr(a.architecture, b.architecture, true))))))
  }

  // ----- parsing

  /** The named groups of one regular expression match, numbers already converted. */
  datatype Groups = Groups(
    major: Option<nat>, minor: Option<nat>, patch: Option<nat>, pre: Option<string>,
    year: Option<nat>, week: Option<nat>, month: Option<nat>, day: Option<nat>,
    cycle: Option<nat>, cycleBuild: Option<nat>, build: Option<nat>,
    rest: Option<string>, architecture: Option<string>, tag: Option<string>)

  datatype Match = Match(imageType: ImageType, groups: Groups)

  /** The regular expressions and the calendar: what lies outside this model. */
  datatype Parser = Parser(
    matches: string -> seq<Match>,
    isoThursday: (nat, nat) -> Option<int>,
    calendarDay: (nat, nat, nat) -> Option<int>,
    aliasGroups: string -> Option<Groups>)

  /** Which groups each regular expression always fills. An end of line may follow the rest of an experimental tag. */
  predicate Filled(name: string, m: Match) {
    var g := m.groups;
    match m.imageType
    case Candidate => g.major.Some? && g.minor.Some? && g.pre.Some?
    case Release => g.major.Some? && g.minor.Some?
    case Weekly => g.year.Some? && g.week.Some?
    case Daily => g.year.Some? && g.month.Some? && g.day.Some?
    case Experimental =>
      g.rest.Some? && '\n' !in g.rest.value && (name == "exp_" + g.rest.value || name == "exp_" + g.rest.value + "\n")
    case Unknown => g.tag.Some? && g.year.None?
    case Alias => false
  }

  /** Every match fills its groups, and the last expression accepts every name without a newline. */
  ghost predicate Legal(p: Parser) {
    forall name: string ::
      && (forall i | 0 <= i < |p.matches(name)| :: Filled(name, p.matches(name)[i]))
      && ('\n' !in name ==> p.matches(name) != [] && p.matches(name)[|p.matches(name)| - 1].imageType.Unknown?)
  }

  const NO_GROUPS := Groups(None, None, None, None, None, None, None, None, None, None, None, None, None, None)

  /** Legal expressions may match an experimental tag that ends in a newline, as the program's do. */
  lemma LegalAtNewline() returns (p: Parser)
    ensures Legal(p) && p.matches("exp_x\n") == [Match(Experimental, NO_GROUPS.(rest := Some("x")))]
  {
    var matches: string -> seq<Match> := name =>
      if name == "exp_x\n" then [Match(Experimental, NO_GROUPS.(rest := Some("x")))]
      else if '\n' in name then []
      else [Match(Unknown, NO_GROUPS.(tag := Some(name)))];
    p := Parser(matches, (_, _) => None, (_, _, _) => None, _ => None);
    assert "exp_x\n" == "exp_" + "x" + "\n" && "exp_x\n"[5] == '\n';
  }

  /** `_calculate_date`; the error is the `ValueError` of an impossible date. */
  function CalculateDate(p: Parser, g: Groups): Result<Option<int>, ()> {
    match g.year
    case None => Ok(None)
    case Some(year) =>
      if g.week.Some? then
        match p.isoThursday(year, g.week.value)
        case Some(date) => Ok(Some(date))
        case None => Err(())
      else if g.month.None? || g.day.None? then Ok(None)
      else
        match p.calendarDay(year, g.month.value, g.day.value)
        case Some(date) => Ok(Some(date))
        case None => Err(())
  }

  predicate Semantic(t: ImageType) {
    t.Release? || t.Candidate?
  }

  /** `_parse_version` */
  function ParseVersion(name: string, m: Match): Version
    requires Filled(name, m) && !m.imageType.Experimental? && !m.imageType.Unknown?
  {
    var g := m.groups;
    if Semantic(m.imageType) then
      Version(g.major.value, g.minor.value, g.patch.GetOr(0), g.pre)
    else if m.imageType.Weekly? then Version(g.year.value, g.week.value, 0, None)
    else Version(g.year.value, g.month.value, g.day.value, None)
  }

  /** `_from_match` for everything but experimental tags. */
  function FromMatch(p: Parser, name: string, m: Match): Result<Tag, ()>
    requires Filled(name, m) && !m.imageType.Experimental?
  {
    var g := m.groups;
    var date :- CalculateDate(p, g);
    Ok(Tag(name, m.imageType,
           if m.imageType.Unknown? then g.tag else None,
           if m.imageType.Unknown? then None else Some(ParseVersion(name, m)),
           Semantic(m.imageType), g.cycle, g.cycleBuild, g.build, g.architecture, g.rest, date))
  }

  /** `from_str`: the first match that can be turned into a tag wins. */
  function FromStr(p: Parser, name: string): Tag
    requires Legal(p)
    decreases |name| + |"latest"|, 1, 0
  {
    if name == "" then FromMatches(p, "latest", p.matches("latest"))
    else FromMatches(p, name, p.matches(name))
  }

  function FromMatches(p: Parser, name: string, ms: seq<Match>): Tag
    requires Legal(p) && forall i | 0 <= i < |ms| :: Filled(name, ms[i])
    decreases |name|, 0, |ms|
  {
    if ms == [] then Tag(name, Unknown, None, None, false, None, None, None, None, None, None)
    else if ms[0].imageType.Experimental? then
      assert Filled(name, ms[0]);
      var rest := ms[0].groups.rest.value;
      if rest == "" then FromMatches(p, name, ms[1..])
      else FromMatches(p, rest, p.matches(rest)).(name := name, imageType := Experimental)
    else
      match FromMatch(p, name, ms[0])
      case Ok(tag) => tag
      case Err(_) => FromMatches(p, name, ms[1..])
  }

  /** `alias` */
  function AliasTag(p: Parser, name: string): Tag {
    match p.aliasGroups(name)
    case Some(g) => Tag(name, Alias, Some(g.tag.GetOr(name)), None, false, g.cycle, None, None, g.architecture, None, None)
    case None => Tag(name, Alias, Some(name), None, false, None, None, None, None, None, None)
  }

  /** What parsing guarantees: a version or a base name, as the series demands. */
  predicate WellParsed(t: Tag) {
    && (t.version.Some? ==> t.base.None?)
    && (match t.imageType
        case Experimental => t.version.Some? || t.base.Some?
        case Alias => t.version.None?
        case Unknown => t.version.None?
        case _ => t.version.Some?)
  }

  lemma {:induction false} FromMatchesWellParsed(p: Parser, name: string, ms: seq<Match>)
    requires Legal(p) && forall i | 0 <= i < |ms| :: Filled(name, ms[i])
    ensures WellParsed(FromMatches(p, name, ms))
    ensures ms != [] && ms[|ms| - 1].imageType.Unknown? ==>
              var t := FromMatches(p, name, ms); t.version.Some? || t.base.Some?
    decreases |name|, |ms|
  {
    if ms != [] {
      if ms[0].imageType.Experimental? {
        var rest := ms[0].groups.rest.value;
        if rest == "" {
          FromMatchesWellParsed(p, name, ms[1..]);
        } else {
          FromMatchesWellParsed(p, rest, p.matches(rest));
        }
      } else if FromMatch(p, name, ms[0]).Err? {
        FromMatchesWellParsed(p, name, ms[1..]);
      }
    }
  }

  /** Every parsed tag, experimental rewriting included, carries what its series is compared by. */
  lemma ParsedTagsAreWellParsed(p: Parser, name: string)
    requires Legal(p)
    ensures WellParsed(FromStr(p, name)) && WellParsed(AliasTag(p, name))
  {
    FromMatchesWellParsed(p, "latest", p.matches("latest"));
    FromMatchesWellParsed(p, name, p.matches(name));
  }

  // ----- the order

  /** The three comparisons of a chain a, b, c agree with an order. */
  predicate Chain(ab: int, bc: int, ac: int) {
    && (ab <= 0 && bc <= 0 ==> ac <= 0)
    && (ab <= 0 && bc <= 0 && ac == 0 ==> ab == 0 && bc == 0)
  }

  lemma {:induction false} TextChain(a: string, b: string, c: string)
    ensures Chain(CompareText(a, b), CompareText(b, c), CompareText(a, c))
    decreases |a|
  {
    if a != [] && b != [] && c != [] {
      TextChain(a[1..], b[1..], c[1..]);
    }
  }

  lemma {:induction false} TextFlips(a: string, b: string)
    ensures CompareText(a, b) == -CompareText(b, a)
    ensures CompareText(a, b) == 0 <==> a == b
    decreases |a|
  {
    if a != [] && b != [] {
      TextFlips(a[1..], b[1..]);
      assert a == [a[0]] + a[1..] && b == [b[0]] + b[1..];
    }
  }

  lemma StrChain(a: Option<string>, b: Option<string>, c: Option<string>, noneLast: bool)
    ensures Chain(CompareStr(a, b, noneLast), CompareStr(b, c, noneLast), CompareStr(a, c, noneLast))
  {
    if a.Some? && b.Some? && c.Some? {
      TextChain(a.value, b.value, c.value);
    }
  }

  lemma StrFlips(a: Option<string>, b: Option<string>, noneLast: bool)
    ensures CompareStr(a, b, noneLast) == -CompareStr(b, a, noneLast)
    ensures CompareStr(a, b, noneLast) == 0 <==> a == b
  {
    if a.Some? && b.Some? {
      TextFlips(a.value, b.value);
    }
  }

  lemma VersionChain(a: Version, b: Version, c: Version)
    ensures Chain(CompareVersion(a, b), CompareVersion(b, c), CompareVersion(a, c))
  {
    StrChain(a.pre, b.pre, c.pre, true);
  }

  lemma VersionFlips(a: Version, b: Version)
    ensures CompareVersion(a, b) == -CompareVersion(b, a)
    ensures CompareVersion(a, b) == 0 <==> a == b
  {
    StrFlips(a.pre, b.pre, true);
  }

  lemma HeadChain(a: Tag, b: Tag, c: Tag)
    requires WellParsed(a) && WellParsed(b) && WellParsed(c)
    requires a.imageType == b.imageType == c.imageType
    ensures Chain(CompareHead(a, b), CompareHead(b, c), CompareHead(a, c))
  {
    StrChain(a.base, b.base, c.base, false);
    if a.version.Some? && b.version.Some? && c.version.Some? {
      VersionChain(a.version.value, b.version.value, c.version.value);
    }
  }

  /** On parsed tags of one type `_compare` is transitive. */
  lemma CompareChains(a: Tag, b: Tag, c: Tag)
    requires WellParsed(a) && WellParsed(b) && WellParsed(c)
    requires a.imageType == b.imageType == c.imageType
    ensures Chain(Compare(a, b), Compare(b, c), Compare(a, c))
  {
    HeadChain(a, b, c);
    StrChain(a.extra, b.extra, c.extra, false);
    StrChain(a.architecture, b.architecture, c.architecture, true);
  }

  /** On any two tags `_compare` is antisymmetric up to ties, so it is total. */
  lemma CompareFlips(a: Tag, b: Tag)
    ensures Compare(a, b) == -Compare(b, a)
    ensures a == b ==> Compare(a, b) == 0
  {
    hide CompareText, CompareVersion, CompareStr;
    StrFlips(a.base, b.base, false);
    StrFlips(a.extra, b.extra, false);
    StrFlips(a.architecture, b.architecture, true);
    if a.version.Some? && b.version.Some? {
      VersionFlips(a.version.value, b.version.value);
    }
  }

  // ----- what the order means

  /** Texts are ordered by the first place at which they differ, and a text comes before its continuations. */
  lemma {:induction false} TextDecides(common: string, c: char, a: string, d: char, b: string)
    ensures c < d ==> CompareText(common + [c] + a, common + [d] + b) == -1
    ensures CompareText(common, common + [d] + b) == -1
  {
    if common == [] {
      assert [] + [c] + a == [c] + a && [] + [d] + b == [d] + b;
    } else {
      TextDecides(common[1..], c, a, d, b);
      assert (common + [c] + a)[1..] == common[1..] + [c] + a;
      assert (common + [d] + b)[1..] == common[1..] + [d] + b;
    }
  }

  /** Major numbers decide before minor ones and these before patches; a prerelease is less than its release. */
  lemma VersionDecides(a: Version, b: Version)
    ensures a.major < b.major ==> CompareVersion(a, b) == -1
    ensures a.major == b.major && a.minor < b.minor ==> CompareVersion(a, b) == -1
    ensures a.major == b.major && a.minor == b.minor && a.patch < b.patch ==> CompareVersion(a, b) == -1
    ensures b == a.(pre := None) && a.pre.Some? ==> CompareVersion(a, b) == -1
    ensures a.pre.Some? && b.pre.Some? && b == a.(pre := b.pre) ==> CompareVersion(a, b) == CompareText(a.pre.value, b.pre.value)
  {
  }

  /** The first numbers that differ, from the left, are less on this side. */
  predicate Earlier(xs: seq<nat>, ys: seq<nat>)
    requires |xs| == |ys|
  {
    exists k | 0 <= k < |xs| :: xs[k] < ys[k] && forall j | 0 <= j < k :: xs[j] == ys[j]
  }

  lemma EarlierOf(xs: seq<nat>, ys: seq<nat>)
    requires |xs| == |ys| && 2 <= |xs| <= 3
    ensures Earlier(xs, ys) ==>
              && xs[0] <= ys[0] && (xs[0] == ys[0] ==> xs[1] <= ys[1])
              && (xs[0] == ys[0] && xs[1] == ys[1] ==> |xs| == 3 && xs[2] < ys[2])
  {
    if Earlier(xs, ys) {
      var k :| 0 <= k < |xs| && xs[k] < ys[k] && forall j | 0 <= j < k :: xs[j] == ys[j];
      assert k == 0 || xs[0] == ys[0];
      assert k <= 1 || xs[1] == ys[1];
    }
  }

  /** A later week, day or release compares greater, and so does a later candidate of one release. */
  lemma LaterIsGreater(p: Parser, a: string, m: Match, b: string, n: Match)
    requires Filled(a, m) && Filled(b, n) && m.imageType == n.imageType && !m.imageType.Experimental?
    requires FromMatch(p, a, m).Ok? && FromMatch(p, b, n).Ok?
    ensures var order, g, h := Compare(FromMatch(p, a, m).value, FromMatch(p, b, n).value), m.groups, n.groups;
            && (m.imageType.Weekly? && Earlier([g.year.value, g.week.value], [h.year.value, h.week.value]) ==> order == -1)
            && (m.imageType.Daily? ==>
                  Earlier([g.year.value, g.month.value, g.day.value], [h.year.value, h.month.value, h.day.value]) ==> order == -1)
            && (m.imageType.Release? || m.imageType.Candidate? ==>
                  Earlier([g.major.value, g.minor.value, g.patch.GetOr(0)], [h.major.value, h.minor.value, h.patch.GetOr(0)]) ==>
                    order == -1)
            && (m.imageType.Candidate? && CompareText(g.pre.value, h.pre.value) == -1 ==>
                  [g.major.value, g.minor.value, g.patch.GetOr(0)] == [h.major.value, h.minor.value, h.patch.GetOr(0)] ==> order == -1)
  {
    hide CompareText, CompareVersion, Earlier;
    var v, w, g, h := FromMatch(p, a, m).value.version, FromMatch(p, b, n).value.version, m.groups, n.groups;
    if v.Some? && w.Some? {
      VersionDecides(v.value, w.value);
    }
    if m.imageType.Weekly? {
      EarlierOf([g.year.value, g.week.value], [h.year.value, h.week.value]);
    } else if m.imageType.Daily? {
      EarlierOf([g.year.value, g.month.value, g.day.value], [h.year.value, h.month.value, h.day.value]);
    } else if m.imageType.Release? || m.imageType.Candidate? {
      EarlierOf([g.major.value, g.minor.value, g.patch.GetOr(0)], [h.major.value, h.minor.value, h.patch.GetOr(0)]);
    }
  }

  /** A number that is not there is less than any that is. */
  predicate Below(a: Option<nat>, b: Option<nat>) {
    b.Some? && (a.None? || a.value < b.value)
  }

  /** What decides between tags of one version or base: cycle, cycle build, build, rest, and last the architecture, where none is greatest. */
  lemma TiesAreBroken(a: Tag, b: Tag)
    requires a.version == b.version && a.base == b.base
    ensures Below(a.cycle, b.cycle) ==> Compare(a, b) == -1
    ensures a.cycle == b.cycle && Below(a.cycleBuild, b.cycleBuild) ==> Compare(a, b) == -1
    ensures a.cycle == b.cycle && a.cycleBuild == b.cycleBuild && Below(a.build, b.build) ==> Compare(a, b) == -1
    ensures a.cycle == b.cycle && a.cycleBuild == b.cycleBuild && a.build == b.build ==>
              && (a.extra.None? && b.extra.Some? ==> Compare(a, b) == -1)
              && (a.extra.Some? && b.extra.Some? && CompareText(a.extra.value, b.extra.value) == -1 ==> Compare(a, b) == -1)
              && (a.extra == b.extra && a.architecture.Some? && b.architecture.None? ==> Compare(a, b) == -1)
              && (a.extra == b.extra && a.architecture.Some? && b.architecture.Some? ==>
                    Compare(a, b) == CompareText(a.architecture.value, b.architecture.value))
              && (a.extra == b.extra && a.architecture == b.architecture ==> Compare(a, b) == 0)
  {
    hide CompareText;
    StrFlips(a.base, b.base, false);
    StrFlips(a.extra, b.extra, false);
    StrFlips(a.architecture, b.architecture, true);
    if a.version.Some? {
      VersionFlips(a.version.value, b.version.value);
    }
  }

  /** A match can be turned into a tag: its date is one, and an experimental tag has a rest. */
  predicate Usable(p: Parser, m: Match) {
    var g := m.groups;
    if m.imageType.Experimental? then g.rest.GetOr("") != ""
    else if g.year.None? then true
    else if g.week.Some? then p.isoThursday(g.year.value, g.week.value).Some?
    else g.month.Some? && g.day.Some? ==> p.calendarDay(g.year.value, g.month.value, g.day.value).Some?
  }

  /** The first match that can be turned into a tag makes the tag; an experimental one makes it of its rest; no match makes an unknown tag. */
  lemma {:induction false} FirstMatchWins(p: Parser, name: string, ms: seq<Match>, k: nat)
    requires Legal(p) && forall i | 0 <= i < |ms| :: Filled(name, ms[i])
    requires k <= |ms| && (forall i | 0 <= i < k :: !Usable(p, ms[i])) && (k < |ms| ==> Usable(p, ms[k]))
    ensures var t := FromMatches(p, name, ms);
            if k == |ms| then t == Tag(name, Unknown, None, None, false, None, None, None, None, None, None)
            else if ms[k].imageType.Experimental? then t == FromStr(p, ms[k].groups.rest.value).(name := name, imageType := Experimental)
            else FromMatch(p, name, ms[k]) == Ok(t)
    decreases |ms|
  {
    if ms != [] {
      assert Filled(name, ms[0]);
      if k > 0 {
        FirstMatchWins(p, name, ms[1..], k - 1);
      }
    }
  }

  /** What a match says about its tag: each group goes to its own field, and the date is that of the week's Thursday or the day. */
  lemma MatchTells(p: Parser, name: string, m: Match)
    requires Filled(name, m) && !m.imageType.Experimental?
    ensures FromMatch(p, name, m).Ok? <==> Usable(p, m)
    ensures FromMatch(p, name, m).Ok? ==>
              var t, g := FromMatch(p, name, m).value, m.groups;
              && t.name == name && t.imageType == m.imageType && (t.semantic <==> m.imageType.Release? || m.imageType.Candidate?)
              && t.cycle == g.cycle && t.cycleBuild == g.cycleBuild && t.build == g.build
              && t.extra == g.rest && t.architecture == g.architecture
              && (m.imageType.Unknown? ==> t.base == g.tag && t.version.None? && t.date.None?)
              && (m.imageType.Weekly? ==> t.date.Some? && t.date == p.isoThursday(g.year.value, g.week.value))
              && (m.imageType.Daily? && g.week.None? ==> t.date.Some? && t.date == p.calendarDay(g.year.value, g.month.value, g.day.value))
              && (g.year.None? ==> t.date.None?)
  {
  }

  /** An alias has a base, a cycle and an architecture at most. */
  lemma AliasTells(p: Parser, name: string)
    ensures var t := AliasTag(p, name);
            && t.name == name && t.imageType.Alias? && !t.semantic
            && t.cycleBuild.None? && t.build.None? && t.extra.None? && t.date.None?
            && (p.aliasGroups(name).None? ==> t.base == Some(name) && t.cycle.None? && t.architecture.None?)
            && (p.aliasGroups(name).Some? ==>
                  var g := p.aliasGroups(name).value;
                  t.base == Some(g.tag.GetOr(name)) && t.cycle == g.cycle && t.architecture == g.architecture)
  {
  }

  const OLD_VERSION := Tag("a", Experimental, None, Some(Version(1, 0, 0, None)), false, Some(3), None, None, None, None, None)
  const NEITHER := Tag("b", Experimental, None, None, false, Some(2), None, None, None, None, None)
  const NEW_VERSION := Tag("c", Experimental, None, Some(Version(2, 0, 0, None)), false, Some(1), None, None, None, None, None)

  /** A record with neither version nor base name, which no parse produces in a series, makes a cycle. */
  lemma CompareNeedsParsing()
    ensures Compare(OLD_VERSION, NEW_VERSION) == -1
    ensures Compare(NEW_VERSION, NEITHER) == -1
    ensures Compare(NEITHER, OLD_VERSION) == -1
    ensures !WellParsed(NEITHER)
  {
  }

  // ----- sorting

  function Itself(tag: Tag): Tag {
    tag
  }

  /** Elements whose tags are all parsed and of one type. */
  ghost predicate OneSeries<T>(s: seq<T>, key: T -> Tag) {
    forall x, y | x in s && y in s :: WellParsed(key(x)) && key(x).imageType == key(y).imageType
  }

  ghost predicate Descending<T>(s: seq<T>, key: T -> Tag) {
    forall i, j | 0 <= i < j < |s| :: Compare(key(s[j]), key(s[i])) <= 0
  }

  /** In front of the first element that is not greater. */
  function Insert<T>(x: T, s: seq<T>, key: T -> Tag): seq<T> {
    if s == [] || Compare(key(s[0]), key(x)) <= 0 then [x] + s
    else [s[0]] + Insert(x, s[1..], key)
  }

  /** Python's stable `sort(reverse=True)`. */
  function SortDescending<T>(s: seq<T>, key: T -> Tag): seq<T> {
    if s == [] then [] else Insert(s[0], SortDescending(s[1..], key), key)
  }

  lemma {:induction false} InsertKeepsElements<T>(x: T, s: seq<T>, key: T -> Tag)
    ensures multiset(Insert(x, s, key)) == multiset(s) + multiset{x}
  {
    if s == [] || Compare(key(s[0]), key(x)) <= 0 {
    } else {
      InsertKeepsElements(x, s[1..], key);
      assert s == [s[0]] + s[1..];
    }
  }

  lemma {:induction false} SortKeepsElements<T>(s: seq<T>, key: T -> Tag)
    ensures multiset(SortDescending(s, key)) == multiset(s)
  {
    if s != [] {
      SortKeepsElements(s[1..], key);
      InsertKeepsElements(s[0], SortDescending(s[1..], key), key);
      assert s == [s[0]] + s[1..];
    }
  }

  lemma InSorted<T>(x: T, s: seq<T>, key: T -> Tag)
    ensures |SortDescending(s, key)| == |s|
    ensures x in SortDescending(s, key) <==> x in s
  {
    SortKeepsElements(s, key);
    assert |multiset(SortDescending(s, key))| == |multiset(s)|;
    assert x in SortDescending(s, key) <==> x in multiset(SortDescending(s, key));
  }

  lemma {:induction false} InsertSorts<T>(x: T, s: seq<T>, key: T -> Tag)
    requires OneSeries([x] + s, key) && Descending(s, key)
    ensures Descending(Insert(x, s, key), key)
    decreases |s|, 1
  {
    if s != [] {
      assert x in [x] + s && s[0] in [x] + s;
      if Compare(key(s[0]), key(x)) <= 0 {
        forall i | 0 <= i < |s| ensures Compare(key(s[i]), key(x)) <= 0 {
          assert s[i] in [x] + s;
          CompareFlips(key(s[i]), key(s[i]));
          CompareChains(key(s[i]), key(s[0]), key(x));
        }
      } else {
        InsertRest(x, s, key);
      }
    }
  }

  lemma {:induction false} InsertBounded<T>(x: T, s: seq<T>, key: T -> Tag, top: Tag)
    requires Compare(key(x), top) <= 0 && forall i | 0 <= i < |s| :: Compare(key(s[i]), top) <= 0
    ensures forall i | 0 <= i < |Insert(x, s, key)| :: Compare(key(Insert(x, s, key)[i]), top) <= 0
  {
    hide Compare;
    if s != [] {
      InsertBounded(x, s[1..], key, top);
    }
  }

  lemma {:induction false} InsertRest<T>(x: T, s: seq<T>, key: T -> Tag)
    requires OneSeries([x] + s, key) && Descending(s, key) && s != []
    requires Compare(key(s[0]), key(x)) > 0
    ensures Descending(Insert(x, s, key), key)
    decreases |s|, 0
  {
    hide Compare, WellParsed;
    SmallerSeries([x] + s, [x] + s[1..], key);
    InsertSorts(x, s[1..], key);
    CompareFlips(key(s[0]), key(x));
    InsertBounded(x, s[1..], key, key(s[0]));
  }

  lemma SortedTailFrom<T>(s: seq<T>, key: T -> Tag)
    requires s != []
    ensures forall y :: y in [s[0]] + SortDescending(s[1..], key) ==> y in s
  {
    var rest := SortDescending(s[1..], key);
    forall y | y in [s[0]] + rest ensures y in s {
      if y in rest {
        InSorted(y, s[1..], key);
        var j :| 0 <= j < |s[1..]| && s[1..][j] == y;
        assert s[j + 1] == y;
      }
    }
  }

  /** Sorting parsed tags of one type really orders them, newest first. */
  lemma {:induction false} SortSorts<T>(s: seq<T>, key: T -> Tag)
    requires OneSeries(s, key)
    ensures Descending(SortDescending(s, key), key)
  {
    if s != [] {
      var rest := SortDescending(s[1..], key);
      SortSorts(s[1..], key);
      SortedTailFrom(s, key);
      InsertSorts(s[0], rest, key);
    }
  }

  /** Sorting is stable: elements that compare alike keep their order. */
  function Alike<T>(x: T, s: seq<T>, key: T -> Tag): seq<T> {
    if s == [] then []
    else if Compare(key(s[0]), key(x)) == 0 then [s[0]] + Alike(x, s[1..], key)
    else Alike(x, s[1..], key)
  }

  lemma {:induction false} InsertIsStable<T>(x: T, y: T, s: seq<T>, key: T -> Tag)
    requires OneSeries([y, x] + s, key) && Descending(s, key)
    ensures Alike(x, Insert(y, s, key), key) == Alike(x, [y] + s, key)
  {
    if s == [] || Compare(key(s[0]), key(y)) <= 0 {
    } else {
      assert forall z :: z in [y, x] + s[1..] ==> z in [y, x] + s;
      InsertIsStable(x, y, s[1..], key);
      assert ([y] + s)[1..] == s;
      assert ([y] + s[1..])[1..] == s[1..];
      assert Insert(y, s, key)[1..] == Insert(y, s[1..], key);
      if Compare(key(y), key(x)) == 0 {
        assert y in [y, x] + s && x in [y, x] + s && s[0] in [y, x] + s;
        CompareFlips(key(y), key(x));
        CompareChains(key(s[0]), key(x), key(y));
      }
    }
  }

  lemma {:induction false} SortIsStable<T>(x: T, s: seq<T>, key: T -> Tag)
    requires OneSeries([x] + s, key)
    ensures Alike(x, SortDescending(s, key), key) == Alike(x, s, key)
  {
    if s != [] {
      var rest := SortDescending(s[1..], key);
      SortedTailFrom(s, key);
      SmallerSeries([x] + s, [x] + s[1..], key);
      SmallerSeries([x] + s, s[1..], key);
      SortIsStable(x, s[1..], key);
      SortSorts(s[1..], key);
      SmallerSeries([x] + s, [s[0], x] + rest, key);
      InsertIsStable(x, s[0], rest, key);
      assert ([s[0]] + rest)[1..] == rest;
    }
  }

  lemma SmallerSeries<T>(s: seq<T>, t: seq<T>, key: T -> Tag)
    requires OneSeries(s, key) && forall y | y in t :: y in s
    ensures OneSeries(t, key)
  {
  }

  /** Behind every element that is not less: where a stable descending sort puts a newcomer. */
  function InsertLast<T>(x: T, s: seq<T>, key: T -> Tag): seq<T> {
    if s == [] || Compare(key(s[0]), key(x)) < 0 then [x] + s
    else [s[0]] + InsertLast(x, s[1..], key)
  }

  lemma {:induction false} InsertsCommute<T>(x: T, y: T, s: seq<T>, key: T -> Tag)
    requires OneSeries([x, y] + s, key)
    ensures Insert(y, InsertLast(x, s, key), key) == InsertLast(x, Insert(y, s, key), key)
  {
    hide Compare, WellParsed;
    assert x in [x, y] + s && y in [x, y] + s;
    CompareFlips(key(x), key(y));
    if s == [] {
      assert InsertLast(x, [y], key) == (if Compare(key(y), key(x)) < 0 then [x, y] else [y, x]);
      assert Insert(y, [x], key) == (if Compare(key(x), key(y)) <= 0 then [y, x] else [x, y]);
    } else {
      var h, t := s[0], s[1..];
      assert s == [h] + t && h in [x, y] + s;
      CompareChains(key(h), key(x), key(y));
      CompareChains(key(h), key(y), key(x));
      CompareChains(key(x), key(y), key(h));
      CompareChains(key(y), key(x), key(h));
      CompareFlips(key(h), key(x));
      CompareFlips(key(h), key(y));
      SmallerSeries([x, y] + s, [x, y] + t, key);
      InsertsCommute(x, y, t, key);
      assert InsertLast(x, [y] + s, key) ==
             if Compare(key(y), key(x)) < 0 then [x] + ([y] + s) else [y] + InsertLast(x, s, key) by {
        assert ([y] + s)[1..] == s;
      }
      assert Insert(y, [x] + s, key) ==
             if Compare(key(x), key(y)) <= 0 then [y] + ([x] + s) else [x] + Insert(y, s, key) by {
        assert ([x] + s)[1..] == s;
      }
      assert ([h] + InsertLast(x, t, key))[1..] == InsertLast(x, t, key);
      assert ([h] + Insert(y, t, key))[1..] == Insert(y, t, key);
    }
  }

  /** Sorting with one more element at the end puts it behind its equals. */
  lemma {:induction false} SortAppend<T>(s: seq<T>, x: T, key: T -> Tag)
    requires OneSeries(s + [x], key)
    ensures SortDescending(s + [x], key) == InsertLast(x, SortDescending(s, key), key)
  {
    if s == [] {
      assert s + [x] == [x] && [x][1..] == [];
      assert SortDescending([x], key) == Insert(x, [], key);
    } else {
      assert (s + [x])[1..] == s[1..] + [x] && (s + [x])[0] == s[0];
      SmallerSeries(s + [x], s[1..] + [x], key);
      SortAppend(s[1..], x, key);
      SortedTailFrom(s, key);
      SmallerSeries(s + [x], [x, s[0]] + SortDescending(s[1..], key), key);
      InsertsCommute(x, s[0], SortDescending(s[1..], key), key);
    }
  }

  lemma {:induction false} SortOfSorted<T>(s: seq<T>, key: T -> Tag)
    requires Descending(s, key)
    ensures SortDescending(s, key) == s
  {
    if s != [] {
      SortOfSorted(s[1..], key);
      assert s == [s[0]] + s[1..];
    }
  }

  /** Appending to a sorted list and sorting again is sorting everything at once. */
  lemma ResortIsSort<T>(s: seq<T>, x: T, key: T -> Tag)
    requires OneSeries(s + [x], key)
    ensures SortDescending(SortDescending(s, key) + [x], key) == SortDescending(s + [x], key)
  {
    var sorted := SortDescending(s, key);
    SmallerSeries(s + [x], s, key);
    SortSorts(s, key);
    SortOfSorted(sorted, key);
    forall y | y in sorted + [x] ensures y in s + [x] {
      InSorted(y, s, key);
    }
    SmallerSeries(s + [x], sorted + [x], key);
    SortAppend(sorted, x, key);
    SortAppend(s, x, key);
  }
}
