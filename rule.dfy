/**
 * Single-condition rules (`PropType`, `RuleType`, `Rule` in watcher.py): an
 * edge detector over one property of the focused window's identity.
 */
module Rules {
  import opened Wrappers
  import opened RegexMatching

  /** Which facet of the identity a rule inspects. */
  datatype PropType = Name | Class

  /** Which edge of the match state a rule reacts to. */
  datatype RuleType = OnMatch | StoppedMatching

  /** The focused window's identity: its optional name and optional class tuple. */
  datatype Identity = Identity(name: Option<string>, wmClass: Option<seq<string>>)

  /** Projects the selected property out of an identity. */
  function Select(p: PropType, id: Identity): PropValue
  {
    match p
    case Name => NameValue(id.name)
    case Class => ClassValue(id.wmClass)
  }

  /** A rule: run `cmd` when property `propType` starts (`OnMatch`) or stops (`StoppedMatching`) matching. */
  datatype Rule = Rule(propType: PropType, ruleType: RuleType, regex: Matcher, cmd: string)
  {
    /** Did the selected property change between the two identities? */
    predicate Changed(from: Identity, to: Identity)
    {
      Select(propType, from) != Select(propType, to)
    }

    /**
     * Specification of the firing decision: the selected property changed and
     * the matcher has a rising (`OnMatch`) or falling (`StoppedMatching`) edge.
     */
    predicate Fires(from: Identity, to: Identity)
    {
      Changed(from, to) &&
      var matchesNow := Matches(regex, Select(propType, to));
      var matchedBefore := Matches(regex, Select(propType, from));
      match ruleType
      case OnMatch => matchesNow && !matchedBefore
      case StoppedMatching => matchedBefore && !matchesNow
    }

    /**
     * `Rule.handle_change`: scans both property kinds, sets a flag on the
     * selected one when its edge occurs, and then runs the command. Running the
     * command is modelled as returning it in the list of commands run.
     */
    method HandleChange(from: Identity, to: Identity) returns (ran: seq<string>)
      ensures ran == if Fires(from, to) then [cmd] else []
      ensures |ran| <= 1
    {
      var willRun := false;
      var props := [Name, Class];
      var i := 0;
      while i < |props|
        invariant 0 <= i <= |props|
        invariant !willRun
        invariant propType in props[..i] ==> !Fires(from, to)
      {
        var p := props[i];
        if propType == p && Select(p, from) != Select(p, to) {
          var matchesNow := Match(regex, Select(p, to));
          var matchedBefore := Match(regex, Select(p, from));
          match ruleType
          case OnMatch =>
            if matchesNow && !matchedBefore {
              willRun := true;
              break;
            }
          case StoppedMatching =>
            if matchedBefore && !matchesNow {
              willRun := true;
              break;
            }
        }
        assert props[..i + 1] == props[..i] + [p];
        i := i + 1;
      }
      if willRun {
        ran := [cmd];
      } else {
        assert props[..i] == props;
        ran := [];
      }
    }
  }

  /** `Rule.__init__`: compiles the optional pattern into a matcher. */
  function NewRule(propType: PropType, ruleType: RuleType, pattern: Option<string>, cmd: string, engine: PrefixEngine): (r: Rule)
    ensures r.propType == propType && r.ruleType == ruleType && r.cmd == cmd
    ensures r.regex == NewMatcher(pattern, engine)
  {
    Rule(propType, ruleType, NewMatcher(pattern, engine), cmd)
  }

  /** A rule never fires when its selected property is the same before and after, whatever the edge or match state. */
  lemma UnchangedPropertyNeverFires(r: Rule, from: Identity, to: Identity)
    requires Select(r.propType, from) == Select(r.propType, to)
    ensures !r.Fires(from, to)
  {
  }

  /**
   * On one transition, with the same property and matcher, the `OnMatch` rule
   * fires exactly on a rising edge, the `StoppedMatching` rule exactly on a
   * falling edge, and never both.
   */
  lemma EdgesAreExclusive(p: PropType, m: Matcher, onCmd: string, offCmd: string, from: Identity, to: Identity)
    ensures Rule(p, OnMatch, m, onCmd).Fires(from, to)
        <==> Select(p, from) != Select(p, to) && Matches(m, Select(p, to)) && !Matches(m, Select(p, from))
    ensures Rule(p, StoppedMatching, m, offCmd).Fires(from, to)
        <==> Select(p, from) != Select(p, to) && Matches(m, Select(p, from)) && !Matches(m, Select(p, to))
    ensures !(Rule(p, OnMatch, m, onCmd).Fires(from, to) && Rule(p, StoppedMatching, m, offCmd).Fires(from, to))
  {
  }

  /** Only the selected property matters: identities that agree on it give the same decision. */
  lemma OnlySelectedPropertyMatters(r: Rule, from: Identity, to: Identity, from': Identity, to': Identity)
    requires Select(r.propType, from) == Select(r.propType, from')
    requires Select(r.propType, to) == Select(r.propType, to')
    ensures r.Fires(from, to) == r.Fires(from', to')
  {
  }

  /**
   * A class rule fires on any element: with a non-empty pattern, an `OnMatch`
   * class rule fires when the old class did not match and some element of the
   * new class tuple matches, whatever the other elements are.
   */
  lemma ClassRuleFiresOnAnyElement(pattern: string, engine: PrefixEngine, cmd: string,
                                   from: Identity, to: Identity, k: nat)
    requires pattern != ""
    requires !Matches(NewMatcher(Some(pattern), engine), ClassValue(from.wmClass))
    requires to.wmClass.Some? && k < |to.wmClass.value| && engine(pattern, to.wmClass.value[k])
    ensures NewRule(Class, OnMatch, Some(pattern), cmd, engine).Fires(from, to)
  {
    ClassMatchesIfAnyElementMatches(NewMatcher(Some(pattern), engine), to.wmClass.value);
  }
}
