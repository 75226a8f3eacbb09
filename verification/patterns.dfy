/** The regular expressions of the two cleaning chains, each as a dedicated
    matcher that decides, at one position of the subject, whether Python's
    `re` engine finds a match there and where that match ends; and one
    left-to-right substitution scanner shared by all of them, which is what
    `re.sub` (and `str.replace`, for a literal) does with a matcher.

    Each matcher is deterministic: the backtracking the engine would try is
    resolved by hand in the comment above it. */
module Patterns {
  import opened Common
  import opened Text

  datatype Pattern =
    | Literal(text: string)   // the search string of str.replace
    | Block(tag: string)      // <tag[^>]*>.*?</tag>  with DOTALL | IGNORECASE
    | Tag                     // <[^>]+>
    | HtmlComment             // <!--.*?-->  with DOTALL
    | CssComment              // /\*.*?\*/  with DOTALL
    | CssDeclaration          // \b[a-zA-Z-]+\s*:\s*[^;{}\n]+;
    | AtRule                  // @[a-zA-Z-]+\s+[^{]*\{[^}]*\}
    | BraceBlock              // \{[^{}]*\}
    | LeadingNumber           // ^\d+\s+
    | SpacedNumber            // \s+\d+\s+
    | WhitespaceRun           // \s+

  /** The character classes that occur in the patterns. */
  datatype CharClass = Space | Digit | Name | NotGt | NotBrace | DeclValue

  predicate InClass(c: char, k: CharClass) {
    match k
    case Space => IsSpace(c)
    case Digit => IsDigit(c)
    case Name => IsAsciiLetter(c) || c == '-'
    case NotGt => c != '>'
    case NotBrace => c != '{' && c != '}'
    case DeclValue => c != ';' && c != '{' && c != '}' && c != '\n'
  }

  /** End of the longest run of class `k` starting at `i`: a greedy `[k]*`. */
  function RunEnd(s: string, i: nat, k: CharClass): (e: nat)
    requires i <= |s|
    ensures i <= e <= |s|
    ensures forall j :: i <= j < e ==> InClass(s[j], k)
    ensures e < |s| ==> !InClass(s[e], k)
    decreases |s| - i
  {
    if i == |s| || !InClass(s[i], k) then i else RunEnd(s, i + 1, k)
  }

  /** `lit` occurs at `i`; with `ci`, ASCII letters match regardless of case. */
  predicate OccursAt(s: string, i: nat, lit: string, ci: bool) {
    i + |lit| <= |s| &&
    forall j :: 0 <= j < |lit| ==>
      (if ci then LowerChar(s[i + j]) == LowerChar(lit[j]) else s[i + j] == lit[j])
  }

  /** Inside a window `w` of `s` that starts at `e`, `lit` occurs in `s`
      exactly where it occurs in `w`. */
  lemma OccursInWindow(s: string, w: string, e: nat, k: nat, lit: string, ci: bool)
    requires e <= k && e + |w| <= |s| && k + |lit| <= e + |w|
    requires forall x :: 0 <= x < |w| ==> s[e + x] == w[x]
    ensures OccursAt(s, k, lit, ci) <==> OccursAt(w, k - e, lit, ci)
  {
  }

  /** The first occurrence of `lit` at or after `i`: what a lazy `.*?lit`
      in DOTALL mode stops at. */
  function Find(s: string, i: nat, lit: string, ci: bool): (r: Option<nat>)
    requires i <= |s|
    ensures r.Some? ==> i <= r.value && OccursAt(s, r.value, lit, ci)
    ensures r.Some? ==> forall j :: i <= j < r.value ==> !OccursAt(s, j, lit, ci)
    ensures r.None? ==> forall j :: i <= j <= |s| ==> !OccursAt(s, j, lit, ci)
    decreases |s| - i
  {
    if OccursAt(s, i, lit, ci) then Some(i)
    else if i == |s| then None
    else Find(s, i + 1, lit, ci)
  }

  /** `\b` at position `i` of the subject (ASCII word characters). */
  predicate WordBoundary(s: string, i: nat)
    requires i <= |s|
  {
    (i > 0 && IsWordChar(s[i - 1])) != (i < |s| && IsWordChar(s[i]))
  }

  // ---------------------------------------------------------------------------
  // One matcher per pattern. Each returns the end of the match found at `i`.

  /** `<tag[^>]*>.*?</tag>`: `[^>]*` can only stop at the first `>`, and the
      lazy body stops at the first closing tag after it; with no `>` or no
      closing tag there is no match at `i`. */
  function MatchBlock(s: string, i: nat, tag: string): (r: Option<nat>)
    requires i < |s|
    ensures r.Some? ==> i < r.value <= |s|
  {
    if !OccursAt(s, i, "<" + tag, true) then None
    else CloseAfter(s, RunEnd(s, i + 1 + |tag|, NotGt), tag)
  }

  /** The rest of a block whose opening tag's `[^>]*` stopped at `g`: the
      `>` must be there, and the match ends after the first closing tag. */
  function CloseAfter(s: string, g: nat, tag: string): (r: Option<nat>)
    requires g <= |s|
    ensures r.Some? ==> g < r.value <= |s|
  {
    if g == |s| then None
    else match Find(s, g + 1, "</" + tag + ">", true)
      case None => None
      case Some(k) => Some(k + |tag| + 3)
  }

  /** `<[^>]+>`: at least one character, up to the first `>`. */
  function MatchTag(s: string, i: nat): (r: Option<nat>)
    requires i < |s|
    ensures r.Some? ==> i < r.value <= |s|
  {
    if s[i] != '<' then None
    else
      var e := RunEnd(s, i + 1, NotGt);
      if e == i + 1 || e == |s| then None else Some(e + 1)
  }

  /** `open.*?close` in DOTALL mode, for the two comment forms. */
  function MatchDelimited(s: string, i: nat, open: string, close: string): (r: Option<nat>)
    requires i < |s|
    requires open != []
    ensures r.Some? ==> i < r.value <= |s|
  {
    if !OccursAt(s, i, open, false) then None
    else match Find(s, i + |open|, close, false)
      case None => None
      case Some(k) => Some(k + |close|)
  }

  /** `\b[a-zA-Z-]+\s*:\s*[^;{}\n]+;`. The name run and the blank run before
      the colon are maximal (a shorter one would leave a name or blank
      character where `\s` or `:` is needed). After the colon, the greedy
      blank run is followed by the greedy value run; when the value run is
      not empty, the match needs `;` right after it. When it is empty, the
      engine gives back the last blank (unless it is a newline) to the value
      run, so a `;` right after at least one non-newline blank still
      matches. */
  function MatchCssDeclaration(s: string, i: nat): (r: Option<nat>)
    requires i < |s|
    ensures r.Some? ==> i < r.value <= |s|
  {
    if !WordBoundary(s, i) then None
    else
      var a := RunEnd(s, i, Name);
      if a == i then None
      else
        var b := RunEnd(s, a, Space);
        if b == |s| || s[b] != ':' then None
        else
          var q := RunEnd(s, b + 1, Space);
          var e := RunEnd(s, q, DeclValue);
          if e > q then
            if e < |s| && s[e] == ';' then Some(e + 1) else None
          else if q < |s| && s[q] == ';' && q > b + 1 && s[q - 1] != '\n' then Some(q + 1)
          else None
  }

  /** `@[a-zA-Z-]+\s+[^{]*\{[^}]*\}`: a maximal name, at least one blank,
      then everything up to the first `{` and from there to the first `}`. */
  function MatchAtRule(s: string, i: nat): (r: Option<nat>)
    requires i < |s|
    ensures r.Some? ==> i < r.value <= |s|
  {
    if s[i] != '@' then None
    else
      var a := RunEnd(s, i + 1, Name);
      if a == i + 1 then None
      else
        var b := RunEnd(s, a, Space);
        if b == a then None
        else match Find(s, b, "{", false)
          case None => None
          case Some(c) =>
            match Find(s, c + 1, "}", false)
            case None => None
            case Some(d) => Some(d + 1)
  }

  /** `\{[^{}]*\}`: a brace pair with no brace between. */
  function MatchBraceBlock(s: string, i: nat): (r: Option<nat>)
    requires i < |s|
    ensures r.Some? ==> i < r.value <= |s|
  {
    if s[i] != '{' then None
    else
      var e := RunEnd(s, i + 1, NotBrace);
      if e < |s| && s[e] == '}' then Some(e + 1) else None
  }

  /** `^\d+\s+` without MULTILINE: only at the start of the subject, a
      maximal digit run followed by a maximal, non-empty blank run. */
  function MatchLeadingNumber(s: string, i: nat): (r: Option<nat>)
    requires i < |s|
    ensures r.Some? ==> i < r.value <= |s|
  {
    if i != 0 then None
    else
      var a := RunEnd(s, 0, Digit);
      var b := RunEnd(s, a, Space);
      if a == 0 || b == a then None else Some(b)
  }

  /** `\s+\d+\s+`: blanks, digits, blanks, each run maximal and non-empty. */
  function MatchSpacedNumber(s: string, i: nat): (r: Option<nat>)
    requires i < |s|
    ensures r.Some? ==> i < r.value <= |s|
  {
    var a := RunEnd(s, i, Space);
    var b := RunEnd(s, a, Digit);
    var c := RunEnd(s, b, Space);
    if a == i || b == a || c == b then None else Some(c)
  }

  /** `\s+`. */
  function MatchWhitespace(s: string, i: nat): (r: Option<nat>)
    requires i < |s|
    ensures r.Some? ==> i < r.value <= |s|
  {
    var a := RunEnd(s, i, Space);
    if a == i then None else Some(a)
  }

  /** Where the match of `p` that starts at `i` ends, if there is one.
      A literal is matched verbatim; the empty literal never matches. */
  function MatchAt(p: Pattern, s: string, i: nat): (r: Option<nat>)
    requires i < |s|
    ensures r.Some? ==> i < r.value <= |s|
  {
    match p
    case Literal(t) => if t != [] && OccursAt(s, i, t, false) then Some(i + |t|) else None
    case Block(tag) => MatchBlock(s, i, tag)
    case Tag => MatchTag(s, i)
    case HtmlComment => MatchDelimited(s, i, "<!--", "-->")
    case CssComment => MatchDelimited(s, i, "/*", "*/")
    case CssDeclaration => MatchCssDeclaration(s, i)
    case AtRule => MatchAtRule(s, i)
    case BraceBlock => MatchBraceBlock(s, i)
    case LeadingNumber => MatchLeadingNumber(s, i)
    case SpacedNumber => MatchSpacedNumber(s, i)
    case WhitespaceRun => MatchWhitespace(s, i)
  }

  // ---------------------------------------------------------------------------
  // The substitution scanner

  /** The output of the scan from position `i`: at each position, a match is
      replaced by `rep` and the scan resumes where the match ended;
      otherwise the character is copied. */
  function SubFrom(p: Pattern, s: string, rep: string, i: nat): string
    requires i <= |s|
    decreases |s| - i
  {
    if i == |s| then ""
    else match MatchAt(p, s, i)
      case Some(e) => rep + SubFrom(p, s, rep, e)
      case None => [s[i]] + SubFrom(p, s, rep, i + 1)
  }

  /** `re.sub(p, rep, s)`; for `Literal(t)`, `s.replace(t, rep)`. */
  function Sub(p: Pattern, s: string, rep: string): string {
    SubFrom(p, s, rep, 0)
  }

  /** `s.replace(t, r)`. */
  function ReplaceAll(s: string, t: string, r: string): string {
    Sub(Literal(t), s, r)
  }

  /** Successive `str.replace` calls, in table order. */
  function ReplaceChain(s: string, table: seq<(string, string)>): string
    decreases |table|
  {
    if table == [] then s else ReplaceChain(ReplaceAll(s, table[0].0, table[0].1), table[1..])
  }

  // ---------------------------------------------------------------------------
  // Facts about the scanner

  /** No match starts at any position of `[i, j)`. */
  predicate NoMatchBetween(p: Pattern, s: string, i: nat, j: nat)
    requires i <= j <= |s|
    decreases j - i
  {
    i == j || (MatchAt(p, s, i).None? && NoMatchBetween(p, s, i + 1, j))
  }

  lemma {:induction false} NoMatchFromAll(p: Pattern, s: string, i: nat, j: nat)
    requires i <= j <= |s|
    requires forall k :: i <= k < j ==> MatchAt(p, s, k).None?
    ensures NoMatchBetween(p, s, i, j)
    decreases j - i
  {
    if i < j {
      NoMatchFromAll(p, s, i + 1, j);
    }
  }

  lemma {:induction false} SubSkipStep(p: Pattern, s: string, rep: string, i: nat, j: nat)
    requires i <= j <= |s|
    requires NoMatchBetween(p, s, i, j)
    ensures SubFrom(p, s, rep, i) == s[i..j] + SubFrom(p, s, rep, j)
    decreases j - i
  {
    if i < j {
      SubNoMatch(p, s, rep, i);
      SubSkipStep(p, s, rep, i + 1, j);
      SliceCons(s, i, j);
      ConsRegroup(SubFrom(p, s, rep, i), SubFrom(p, s, rep, i + 1), SubFrom(p, s, rep, j), s[i], s[i + 1..j], s[i..j]);
    }
  }

  /** Positions without a match are copied unchanged. */
  lemma SubSkip(p: Pattern, s: string, rep: string, i: nat, j: nat)
    requires i <= j <= |s|
    requires forall k :: i <= k < j ==> MatchAt(p, s, k).None?
    ensures SubFrom(p, s, rep, i) == s[i..j] + SubFrom(p, s, rep, j)
  {
    NoMatchFromAll(p, s, i, j);
    SubSkipStep(p, s, rep, i, j);
  }

  /** A non-empty slice is its first character followed by the rest. */
  lemma SliceCons(s: string, i: nat, j: nat)
    requires i < j <= |s|
    ensures s[i..j] == [s[i]] + s[i + 1..j]
  {
  }

  /** Moving a copied character into the copied stretch. */
  lemma ConsRegroup(a: string, b: string, c: string, x: char, mid: string, whole: string)
    requires a == [x] + b && b == mid + c && whole == [x] + mid
    ensures a == whole + c
  {
  }

  /** A position without a match is copied, and the scan goes on after it. */
  lemma SubNoMatch(p: Pattern, s: string, rep: string, i: nat)
    requires i < |s| && MatchAt(p, s, i).None?
    ensures SubFrom(p, s, rep, i) == [s[i]] + SubFrom(p, s, rep, i + 1)
  {
  }

  /** A match at `i` is replaced, and the scan resumes where it ended. */
  lemma SubAtMatch(p: Pattern, s: string, rep: string, i: nat, e: nat)
    requires i < |s| && MatchAt(p, s, i) == Some(e)
    ensures e <= |s|
    ensures SubFrom(p, s, rep, i) == rep + SubFrom(p, s, rep, e)
  {
  }

  /** Deleting a match at `i` resumes the scan where it ended. */
  lemma DeleteAtMatch(p: Pattern, s: string, i: nat, e: nat)
    requires i < |s| && MatchAt(p, s, i) == Some(e)
    ensures e <= |s|
    ensures SubFrom(p, s, "", i) == SubFrom(p, s, "", e)
  {
    SubAtMatch(p, s, "", i, e);
    assert "" + SubFrom(p, s, "", e) == SubFrom(p, s, "", e);
  }

    /** Equal heads can be swapped. */
  lemma SameHead(a: string, x: string, y: string, z: string)
    requires a == x + z && x == y
    ensures a == y + z
  {
  }

  /** The part `u` of a suffix `u + post`. */
  lemma SliceBefore(s: string, u: string, post: string, rest: string)
    requires rest == u + post && |rest| <= |s| && s[|s| - |rest|..] == rest
    ensures s[|s| - |rest|..|s| - |post|] == u
  {
    var c := |s| - |rest|;
    assert forall k :: c <= k < c + |u| ==> s[k] == u[k - c];
  }

  /** `SubSkipStep` with the copied text named. */
  lemma SubSkipKnown(p: Pattern, s: string, rep: string, i: nat, j: nat, u: string)
    requires i <= j <= |s| && NoMatchBetween(p, s, i, j) && s[i..j] == u
    ensures SubFrom(p, s, rep, i) == u + SubFrom(p, s, rep, j)
  {
    SubSkipStep(p, s, rep, i, j);
  }

  /** A stretch `u`, followed by `post` at the end of `s`, where no match
      starts is copied. */
  lemma SubCopiesUpTo(p: Pattern, s: string, rep: string, u: string, post: string, rest: string)
    requires rest == u + post && |rest| <= |s| && s[|s| - |rest|..] == rest
    requires forall k :: |s| - |rest| <= k < |s| - |post| ==> MatchAt(p, s, k).None?
    ensures SubFrom(p, s, rep, |s| - |rest|) == u + SubFrom(p, s, rep, |s| - |post|)
  {
    NoMatchFromAll(p, s, |s| - |rest|, |s| - |post|);
    SliceBefore(s, u, post, rest);
    SubSkipKnown(p, s, rep, |s| - |rest|, |s| - |post|, u);
  }

  /** The first match, at the end of a stretch with no match, is replaced
      and the scan goes on after it. */
  lemma FirstMatchReplaced(p: Pattern, s: string, rep: string, pre: string, post: string)
    requires |pre| < |s| && |post| <= |s| && forall k :: 0 <= k < |pre| ==> s[k] == pre[k]
    requires forall k :: 0 <= k < |pre| ==> MatchAt(p, s, k).None?
    requires MatchAt(p, s, |pre|) == Some(|s| - |post|)
    ensures Sub(p, s, rep) == pre + rep + SubFrom(p, s, rep, |s| - |post|)
  {
    var m := s[|pre|..];
    WholeAsSuffix(p, s, pre, m, post);
    MatchReplacedFrom(p, s, rep, pre, m, s, post);
    SubFromStart(p, s, rep);
  }

  /** The requirements of `FirstMatchReplaced` restated for the suffix `s`
      of itself. */
  lemma WholeAsSuffix(p: Pattern, s: string, pre: string, m: string, post: string)
    requires |pre| < |s| && |post| <= |s| && forall k :: 0 <= k < |pre| ==> s[k] == pre[k]
    requires forall k :: 0 <= k < |pre| ==> MatchAt(p, s, k).None?
    requires MatchAt(p, s, |pre|) == Some(|s| - |post|)
    requires m == s[|pre|..]
    ensures s == pre + m && m != [] && |s| <= |s| && s[|s| - |s|..] == s && |post| <= |s|
    ensures forall k :: |s| - |s| <= k < |s| - |m| ==> MatchAt(p, s, k).None?
    ensures MatchAt(p, s, |s| - |m|) == Some(|s| - |post|)
  {
    assert s == s[..|pre|] + m;
    assert s[..|pre|] == pre;
  }

  /** The scan from the start. */
  lemma SubFromStart(p: Pattern, s: string, rep: string)
    ensures Sub(p, s, rep) == SubFrom(p, s, rep, |s| - |s|)
  {
  }

  /** The same inside a suffix `rest` of the text: the part `pre` of `rest`,
      in which no match starts, is copied, and the match after it, at the
      start of `m`, is replaced. */
  lemma MatchReplacedFrom(p: Pattern, s: string, rep: string, pre: string, m: string, rest: string, post: string)
    requires rest == pre + m && m != [] && |rest| <= |s| && s[|s| - |rest|..] == rest && |post| <= |s|
    requires forall k :: |s| - |rest| <= k < |s| - |m| ==> MatchAt(p, s, k).None?
    requires MatchAt(p, s, |s| - |m|) == Some(|s| - |post|)
    ensures SubFrom(p, s, rep, |s| - |rest|) == pre + rep + SubFrom(p, s, rep, |s| - |post|)
  {
    SubCopiesUpTo(p, s, rep, pre, m, rest);
    SubAtMatchTail(p, s, rep, m, post);
    JoinAfter(SubFrom(p, s, rep, |s| - |rest|), pre, SubFrom(p, s, rep, |s| - |m|), rep, SubFrom(p, s, rep, |s| - |post|));
  }

  /** `SubAtMatch` at the start of the suffix `m`. */
  lemma SubAtMatchTail(p: Pattern, s: string, rep: string, m: string, post: string)
    requires m != [] && |m| <= |s| && |post| <= |s|
    requires MatchAt(p, s, |s| - |m|) == Some(|s| - |post|)
    ensures SubFrom(p, s, rep, |s| - |m|) == rep + SubFrom(p, s, rep, |s| - |post|)
  {
    SubAtMatch(p, s, rep, |s| - |m|, |s| - |post|);
  }

  /** Regrouping `x + (y + z)`. */
  lemma JoinAfter(a: string, x: string, w: string, y: string, z: string)
    requires a == x + w && w == y + z
    ensures a == x + y + z
  {
    assert x + (y + z) == x + y + z;
  }

  /** The same, replacing by the empty string. */
  lemma MatchRemovedFrom(p: Pattern, s: string, pre: string, m: string, rest: string, post: string)
    requires rest == pre + m && m != [] && |rest| <= |s| && s[|s| - |rest|..] == rest && |post| <= |s|
    requires forall k :: |s| - |rest| <= k < |s| - |m| ==> MatchAt(p, s, k).None?
    requires MatchAt(p, s, |s| - |m|) == Some(|s| - |post|)
    ensures SubFrom(p, s, "", |s| - |rest|) == pre + SubFrom(p, s, "", |s| - |post|)
  {
    MatchReplacedFrom(p, s, "", pre, m, rest, post);
    assert pre + "" == pre;
  }

  /** A tail in which no match starts is copied. */
  lemma SubCopiesTail(p: Pattern, s: string, rep: string, post: string)
    requires |post| <= |s| && s[|s| - |post|..] == post
    requires forall k :: |s| - |post| <= k < |s| ==> MatchAt(p, s, k).None?
    ensures SubFrom(p, s, rep, |s| - |post|) == post
  {
    NoMatchFromAll(p, s, |s| - |post|, |s|);
    SubSkipStep(p, s, rep, |s| - |post|, |s|);
    assert s[|s| - |post|..|s|] == post;
  }

  /** With no match anywhere, the scan returns its input. */
  lemma SubUnchanged(p: Pattern, s: string, rep: string)
    requires forall k :: 0 <= k < |s| ==> MatchAt(p, s, k).None?
    ensures Sub(p, s, rep) == s
  {
    SubSkip(p, s, rep, 0, |s|);
    assert s[0..|s|] == s;
  }

  /** Deleting matches only removes characters. */
  lemma {:induction false} DeleteKeepsOnlyInput(p: Pattern, s: string, i: nat)
    requires i <= |s|
    ensures |SubFrom(p, s, "", i)| <= |s| - i
    ensures forall c :: c in SubFrom(p, s, "", i) ==> c in s[i..]
    decreases |s| - i
  {
    if i < |s| {
      match MatchAt(p, s, i)
      case Some(e) =>
        DeleteKeepsOnlyInput(p, s, e);
        assert "" + SubFrom(p, s, "", e) == SubFrom(p, s, "", e);
        LaterSuffixChars(s, i, e);
      case None =>
        DeleteKeepsOnlyInput(p, s, i + 1);
        assert s[i..] == [s[i]] + s[i + 1..];
    }
  }

  /** A later suffix holds only characters of an earlier one. */
  lemma LaterSuffixChars(s: string, i: nat, e: nat)
    requires i <= e <= |s|
    ensures forall c :: c in s[e..] ==> c in s[i..]
  {
    assert s[i..] == s[i..e] + s[e..];
  }

  /** `RunEnd` characterised: the run of class `k` from `i` ends at `e`. */
  lemma RunEndIs(s: string, i: nat, e: nat, k: CharClass)
    requires i <= e <= |s|
    requires forall j :: i <= j < e ==> InClass(s[j], k)
    requires e == |s| || !InClass(s[e], k)
    ensures RunEnd(s, i, k) == e
  {
  }

  /** The character every match of `p` starts with, when there is one. */
  function LeadChar(p: Pattern): Option<char> {
    match p
    case Literal(t) => if t != [] then Some(t[0]) else None
    case Block(_) => Some('<')
    case Tag => Some('<')
    case HtmlComment => Some('<')
    case CssComment => Some('/')
    case AtRule => Some('@')
    case BraceBlock => Some('{')
    case _ => None
  }

  lemma MatchStartsWithLeadChar(p: Pattern, s: string, i: nat)
    requires i < |s|
    requires LeadChar(p).Some? && MatchAt(p, s, i).Some?
    ensures s[i] == LeadChar(p).value
  {
    if p.Block? {
      assert LowerChar(s[i]) == LowerChar(("<" + p.tag)[0]);
    } else if p.HtmlComment? {
      assert s[i] == "<!--"[0];
    } else if p.CssComment? {
      assert s[i] == "/*"[0];
    } else if p.Literal? {
      assert s[i] == p.text[0];
    }
  }

  /** Text without the character a pattern starts with is left as it is;
      in particular `str.replace` of an absent entity changes nothing. */
  lemma SubWithoutLeadChar(p: Pattern, s: string, rep: string)
    requires LeadChar(p).Some? && LeadChar(p).value !in s
    ensures Sub(p, s, rep) == s
  {
    forall k | 0 <= k < |s| ensures MatchAt(p, s, k).None? {
      if MatchAt(p, s, k).Some? {
        MatchStartsWithLeadChar(p, s, k);
      }
    }
    SubUnchanged(p, s, rep);
  }

  /** A replacement chain whose every search string starts with `c` leaves
      text without `c` unchanged. */
  lemma {:induction false} ChainWithoutLeadChar(s: string, table: seq<(string, string)>, c: char)
    requires forall k :: 0 <= k < |table| ==> table[k].0 != [] && table[k].0[0] == c
    requires c !in s
    ensures ReplaceChain(s, table) == s
    decreases |table|
  {
    if table != [] {
      SubWithoutLeadChar(Literal(table[0].0), s, table[0].1);
      ChainWithoutLeadChar(s, table[1..], c);
    }
  }

  /** Running a chain of replacements in two parts is running the whole. */
  lemma {:induction false} ChainAppend(s: string, a: seq<(string, string)>, b: seq<(string, string)>)
    ensures ReplaceChain(s, a + b) == ReplaceChain(ReplaceChain(s, a), b)
    decreases |a|
  {
    if a != [] {
      assert (a + b)[0] == a[0] && (a + b)[1..] == a[1..] + b;
      ChainAppend(ReplaceAll(s, a[0].0, a[0].1), a[1..], b);
    } else {
      assert a + b == b;
    }
  }
}
