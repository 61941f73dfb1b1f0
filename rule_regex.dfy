/**
 * The optional-pattern matcher (`RuleRegex` in watcher.py).
 *
 * The `re` engine itself is not modelled: a matcher carries the engine as a
 * total function `engine(pattern, haystack)` that answers whether
 * `re.match(pattern, haystack)` succeeds, i.e. whether the pattern matches at
 * the start of the haystack.
 */
module RegexMatching {
  import opened Wrappers

  /** `engine(p, s)` holds iff the regular expression `p` matches a prefix of `s`. */
  type PrefixEngine = (string, string) -> bool

  /** A compiled matcher: `regex` is `None` when the rule was given no pattern. */
  datatype Matcher = Matcher(regex: Option<string>, engine: PrefixEngine)

  /**
   * A property value as handed to `match`: the window name is a bare optional
   * string, the window class an optional sequence of strings.
   */
  datatype PropValue = NameValue(name: Option<string>) | ClassValue(classes: Option<seq<string>>)

  /**
   * Builds a matcher from an optional pattern. The pattern is tested for
   * truthiness, so an empty pattern is the same as no pattern.
   */
  function NewMatcher(pattern: Option<string>, engine: PrefixEngine): (m: Matcher)
    ensures m.regex.None? <==> (pattern.None? || pattern == Some(""))
    ensures m.regex.Some? ==> m.regex == pattern && m.regex.value != ""
    ensures m.engine == engine
  {
    if pattern.Some? && pattern.value != "" then Matcher(pattern, engine) else Matcher(None, engine)
  }

  /**
   * The input of `match` turned into a list of optional strings: a bare
   * string or `None` becomes a one-element list, a class tuple its elements.
   */
  function Normalise(v: PropValue): (hs: seq<Option<string>>)
    ensures |hs| == 0 <==> v == ClassValue(Some([]))
    ensures None in hs <==> v == NameValue(None) || v == ClassValue(None)
  {
    match v
    case NameValue(n) => [n]
    case ClassValue(None) => [None]
    case ClassValue(Some(cs)) => seq(|cs|, i requires 0 <= i < |cs| => Some(cs[i]))
  }

  /**
   * One element satisfies the matcher: a present pattern prefix-matches a
   * present element, or an absent pattern meets an absent element.
   */
  predicate ElementMatches(m: Matcher, h: Option<string>)
  {
    match (m.regex, h)
    case (Some(p), Some(s)) => m.engine(p, s)
    case (None, None) => true
    case _ => false
  }

  /** Specification of `match`: some element of the normalised input satisfies the matcher. */
  predicate Matches(m: Matcher, v: PropValue)
  {
    var hs := Normalise(v);
    exists i :: 0 <= i < |hs| && ElementMatches(m, hs[i])
  }

  /** `RuleRegex.match`: scans the normalised input and returns at the first satisfying element. */
  method Match(m: Matcher, haystacks: PropValue) returns (b: bool)
    ensures b == Matches(m, haystacks)
  {
    var hs := Normalise(haystacks);
    var i := 0;
    while i < |hs|
      invariant 0 <= i <= |hs|
      invariant forall j :: 0 <= j < i ==> !ElementMatches(m, hs[j])
    {
      var haystack := hs[i];
      if m.regex.Some? && haystack.Some? {
        if m.engine(m.regex.value, haystack.value) {
          return true;
        }
      } else if m.regex.None? && haystack.None? {
        return true;
      }
      i := i + 1;
    }
    return false;
  }

  /** A matcher built without a pattern (or with an empty one) matches a name exactly when it is absent. */
  lemma AbsentPatternMatchesOnlyAbsence(pattern: Option<string>, engine: PrefixEngine, name: Option<string>)
    requires pattern.None? || pattern == Some("")
    ensures Matches(NewMatcher(pattern, engine), NameValue(name)) <==> name.None?
  {
    var hs := Normalise(NameValue(name));
    if name.None? {
      assert ElementMatches(NewMatcher(pattern, engine), hs[0]);
    }
  }

  /** A matcher built with a non-empty pattern never matches an absent name and matches a present one by prefix. */
  lemma PresentPatternMatchesByPrefix(pattern: string, engine: PrefixEngine, name: Option<string>)
    requires pattern != ""
    ensures Matches(NewMatcher(Some(pattern), engine), NameValue(name))
        <==> name.Some? && engine(pattern, name.value)
  {
    var hs := Normalise(NameValue(name));
    if name.Some? && engine(pattern, name.value) {
      assert ElementMatches(NewMatcher(Some(pattern), engine), hs[0]);
    }
  }

  /**
   * A present window class matches iff the matcher has a pattern and that
   * pattern prefix-matches at least one element; in particular an empty class
   * tuple never matches, and a pattern-less matcher never matches a present class.
   */
  lemma ClassMatchesIfAnyElementMatches(m: Matcher, classes: seq<string>)
    ensures Matches(m, ClassValue(Some(classes)))
        <==> m.regex.Some? && exists i :: 0 <= i < |classes| && m.engine(m.regex.value, classes[i])
  {
    var hs := Normalise(ClassValue(Some(classes)));
    if m.regex.Some? && exists i :: 0 <= i < |classes| && m.engine(m.regex.value, classes[i]) {
      var i :| 0 <= i < |classes| && m.engine(m.regex.value, classes[i]);
      assert ElementMatches(m, hs[i]);
    }
  }

  /** An absent class is matched exactly by a pattern-less matcher. */
  lemma AbsentClassMatchesOnlyNoPattern(m: Matcher)
    ensures Matches(m, ClassValue(None)) <==> m.regex.None?
  {
    var hs := Normalise(ClassValue(None));
    if m.regex.None? {
      assert ElementMatches(m, hs[0]);
    }
  }
}
