/** Include patterns and how they match, as gitignore(5), section "PATTERN FORMAT",
    defines them. A pattern is kept the way the walk consults it: the text without its
    leading `!` and `/` and without its trailing `/`, four mode bits, and the position
    of the first wildcard byte. */
module Glob {
  import opened Options
  import opened Paths

  datatype Pattern = Pattern(
    text: string,
    negative: bool,
    absolute: bool,
    noSubDir: bool,
    mustBeDir: bool,
    firstWildcard: Option<nat>)

  predicate IsWildcard(c: char) {
    c == '*' || c == '?' || c == '[' || c == '\\'
  }

  /** Position of the first wildcard byte, or `|s|`. */
  function LiteralLength(s: string): (n: nat)
    ensures n <= |s|
    ensures forall i | 0 <= i < n :: !IsWildcard(s[i])
    ensures n < |s| ==> IsWildcard(s[n])
  {
    if s == "" || IsWildcard(s[0]) then 0 else 1 + LiteralLength(s[1..])
  }

  function FirstWildcard(s: string): Option<nat> {
    var n := LiteralLength(s);
    if n < |s| then Some(n) else None
  }

  /** What parsing guarantees of a pattern record. */
  predicate WellFormed(p: Pattern) {
    && p.firstWildcard == FirstWildcard(p.text)
    && (p.noSubDir <==> '/' !in p.text)
  }

  // ---- Parsing one line --------------------------------------------------------

  predicate IsBlank(line: string) {
    forall c | c in line :: c == ' ' || c == '\t' || c == '\r' || c == '\n'
  }

  /** Drop trailing spaces, except one that a backslash quotes. */
  function TrimTrailingSpaces(s: string): string {
    if s == "" || s[|s| - 1] != ' ' then s
    else if |s| >= 2 && s[|s| - 2] == '\\' then s
    else TrimTrailingSpaces(s[..|s| - 1])
  }

  /** What follows the marks for negation and anchoring: a trailing `/` asks for a directory. */
  function ParseRooted(rooted: string, negative: bool, absolute: bool): (p: Pattern)
    ensures WellFormed(p)
  {
    var mustBeDir := rooted != "" && rooted[|rooted| - 1] == '/';
    var text := if mustBeDir then rooted[..|rooted| - 1] else rooted;
    Pattern(text, negative, absolute, '/' !in text, mustBeDir, FirstWildcard(text))
  }

  /** What follows the mark for negation: a leading `/` anchors. */
  function ParseBody(body: string, negative: bool): (r: Option<Pattern>)
    ensures r.Some? ==> WellFormed(r.value)
  {
    if body == "" then None
    else if body[0] == '/' then Some(ParseRooted(body[1..], negative, true))
    else Some(ParseRooted(body, negative, false))
  }

  /** What a line holds besides the mark for negation, or the backslash that quotes one. */
  function LineBody(line: string): string
    requires line != ""
  {
    var quoted := |line| >= 2 && line[0] == '\\' && (line[1] == '!' || line[1] == '#');
    TrimTrailingSpaces(if line[0] == '!' || quoted then line[1..] else line)
  }

  /** One line of a pattern file. Blank lines and `#` comments carry no pattern; a
      leading `!` negates, `\!` and `\#` quote. */
  function ParseLine(line: string): (r: Option<Pattern>)
    ensures r.Some? ==> WellFormed(r.value)
  {
    if IsBlank(line) || line[0] == '#' then None
    else ParseBody(LineBody(line), line[0] == '!')
  }

  /** A pattern as printed without its marks for negation and anchoring. */
  function DisplayRooted(p: Pattern): string {
    if p.mustBeDir then p.text + "/" else p.text
  }

  /** A pattern as printed without its mark for negation. */
  function DisplayBody(p: Pattern): string {
    if p.absolute then "/" + DisplayRooted(p) else DisplayRooted(p)
  }

  /** A pattern as the walk prints it, for counting distinct unanchored patterns. */
  function Display(p: Pattern): string {
    (if p.negative then "!" else "") + DisplayBody(p)
  }

  /** A pattern that came from a body prints as that body. */
  lemma BodyDisplays(body: string, negative: bool)
    requires ParseBody(body, negative).Some?
    ensures var p := ParseBody(body, negative).value; DisplayBody(p) == body && p.negative == negative
  {
    hide FirstWildcard;
    var rooted := if body[0] == '/' then body[1..] else body;
    assert body[0] == '/' ==> body == "/" + rooted;
    if rooted != "" && rooted[|rooted| - 1] == '/' {
      assert rooted == rooted[..|rooted| - 1] + "/";
    }
  }

  /** Patterns that were read from two lines, both negated or neither, and print alike are the
      same pattern: counting how they print counts the patterns. */
  lemma DisplayTellsApart(a: string, b: string)
    requires ParseLine(a).Some? && ParseLine(b).Some?
    requires ParseLine(a).value.negative == ParseLine(b).value.negative
    ensures Display(ParseLine(a).value) == Display(ParseLine(b).value) <==> ParseLine(a) == ParseLine(b)
  {
    hide ParseBody, DisplayBody, TrimTrailingSpaces;
    var p, q := ParseLine(a).value, ParseLine(b).value;
    var bodyOfA, bodyOfB := LineBody(a), LineBody(b);
    BodyDisplays(bodyOfA, a[0] == '!');
    BodyDisplays(bodyOfB, b[0] == '!');
    if Display(p) == Display(q) {
      var mark := if p.negative then "!" else "";
      assert Display(p)[|mark|..] == bodyOfA && Display(q)[|mark|..] == bodyOfB;
    }
  }

  // ---- Wildcard matching -------------------------------------------------------

  /** A bracket expression: its ranges, whether it is negated, and the pattern after it. */
  datatype Bracket = Bracket(negated: bool, ranges: seq<(char, char)>, rest: string)

  /** The ranges up to the closing `]`; a `]` in first place is literal. */
  function BracketRanges(p: string, first: bool): (r: Option<(seq<(char, char)>, string)>)
    ensures r.Some? ==> |r.value.1| < |p|
  {
    if p == "" then None
    else if p[0] == ']' && !first then Some(([], p[1..]))
    else if p[0] == '\\' && |p| < 2 then None
    else
      var lo, rest := if p[0] == '\\' then p[1] else p[0], if p[0] == '\\' then p[2..] else p[1..];
      var isRange := |rest| >= 2 && rest[0] == '-' && rest[1] != ']';
      var hi, after := if isRange then rest[1] else lo, if isRange then rest[2..] else rest;
      match BracketRanges(after, false)
      case None => None
      case Some((ranges, tail)) => Some(([(lo, hi)] + ranges, tail))
  }

  /** Parse what follows a `[`. */
  function ParseBracket(p: string): (r: Option<Bracket>)
    ensures r.Some? ==> |r.value.rest| < |p|
  {
    var negated := p != "" && (p[0] == '!' || p[0] == '^');
    match BracketRanges(if negated then p[1..] else p, true)
    case None => None
    case Some((ranges, rest)) => Some(Bracket(negated, ranges, rest))
  }

  predicate BracketAccepts(b: Bracket, c: char) {
    c != '/' && (b.negated <==> forall i | 0 <= i < |b.ranges| :: !(b.ranges[i].0 <= c <= b.ranges[i].1))
  }

  function AfterStars(p: string): (r: string)
    ensures |r| <= |p|
    ensures p != "" && p[0] == '*' ==> |r| < |p|
  {
    if p != "" && p[0] == '*' then AfterStars(p[1..]) else p
  }

  /** Whether `p` matches all of `t`. `atStart` says that `p` stands at the start of the
      pattern or right after a slash, where `**` may span directories. */
  predicate Wild(p: string, t: string, atStart: bool)
    decreases |p| + |t|, 0
  {
    if p == "" then t == ""
    else if p[0] == '*' then
      var rest := AfterStars(p);
      var spans := |p| - |rest| >= 2 && atStart && (rest == "" || rest[0] == '/' || "\\/" <= rest);
      || (spans && rest != "" && rest[0] == '/' && Wild(rest[1..], t, true))
      || WildAfterStar(rest, t, spans)
    else if t == "" then false
    else if p[0] == '?' then t[0] != '/' && Wild(p[1..], t[1..], false)
    else if p[0] == '[' then
      (match ParseBracket(p[1..])
       case None => false
       case Some(b) => BracketAccepts(b, t[0]) && Wild(b.rest, t[1..], false))
    else if p[0] == '\\' then |p| >= 2 && t[0] == p[1] && Wild(p[2..], t[1..], p[1] == '/')
    else t[0] == p[0] && Wild(p[1..], t[1..], p[0] == '/')
  }

  /** Whether some suffix of `t` matches `p`, skipping slashes only when `spans`. */
  predicate WildAfterStar(p: string, t: string, spans: bool)
    decreases |p| + |t|, 1
  {
    || Wild(p, t, false)
    || (t != "" && (spans || t[0] != '/') && WildAfterStar(p, t[1..], spans))
  }

  /** A match starts with the bytes before the pattern's first wildcard. */
  lemma {:induction false} LiteralHead(p: string, t: string, atStart: bool)
    requires Wild(p, t, atStart)
    ensures p[..LiteralLength(p)] <= t
    ensures LiteralLength(p) == |p| ==> t == p
  {
    if p != "" && !IsWildcard(p[0]) {
      LiteralHead(p[1..], t[1..], p[0] == '/');
      assert t == [t[0]] + t[1..] && p == [p[0]] + p[1..];
      assert p[..LiteralLength(p)] == [p[0]] + p[1..][..LiteralLength(p[1..])];
    }
  }

  /** Match one pattern against a repo-relative path: a pattern with no slash at all is
      held against the basename, any other against the whole path. */
  predicate Matches(p: Pattern, path: string, isDir: bool) {
    && (p.mustBeDir ==> isDir)
    && var value := if p.noSubDir && !p.absolute then Basename(path) else path;
       match p.firstWildcard
       case None => value == p.text
       case Some(_) => Wild(p.text, value, true)
  }
}
