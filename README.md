# window-watch rule engine in Dafny

This project models the rule-evaluation core of window-watch. window-watch is a desktop daemon that watches the
identity of the focused X11 window: its optional title (`WM_NAME`) and its optional class tuple (`WM_CLASS`).
When that identity changes, it runs shell commands. The model has three layers:

- `RegexMatching` (rule_regex.dfy) models `RuleRegex`. A matcher holds an optional pattern. Its input is
  normalised to a list of optional strings. It matches when some element qualifies: a present pattern
  prefix-matches a present element, or an absent pattern meets an absent element. An empty pattern counts as
  no pattern. The regular-expression engine is a parameter `engine(pattern, haystack)` that stands for
  "`re.match` succeeds". The model does not interpret it.
- `Rules` (rule.dfy) models `PropType`, `RuleType` and `Rule`. A rule is an edge detector over one property,
  NAME or CLASS. It fires only when that property changed. `OnMatch` fires on a rising edge of the matcher and
  `StoppedMatching` on a falling edge. `Rule.Fires` is the decision as a predicate. `Rule.HandleChange` is the
  source's loop over both property kinds, with its flag and `break`, proved equal to that predicate. Running
  the command is modelled as returning it.
- `Watching` (watcher.dfy) models `Watcher`. It is a class with the mutable cell `wName`/`wClass` and a log
  `ran` of the commands run so far. `HandleUpdate` ignores an unchanged identity. Otherwise it runs every rule
  in configuration order against the old and new identity and then commits the new identity. It is proved
  against the specification function `Step`. `Trace` folds `Step` over a sequence of deliveries.

There is no "uninitialised" state. The constructor's identity defaults to absent name and class, and the
entry point seeds it from the current focus. The model follows the code here, so the first update is diffed
against that seed like any other update. The TODO at watcher.py:90 plans `&&` conditions for rules. This
revision has exactly one condition per rule, and the model follows the code.

## Model

| member | source | states |
|---|---|---|
| `RegexMatching.NewMatcher` | watcher.py:38-39 | the matcher has no pattern exactly when the pattern is missing or empty (truthiness test); otherwise it keeps the pattern |
| `RegexMatching.Normalise` | watcher.py:42-43 | the list handed to the scan is empty only for an empty class tuple, and holds an absent element exactly when the name or the class itself is absent |
| `RegexMatching.Match` | watcher.py:41-52 | the early-return scan returns true iff some normalised element satisfies the matcher (present pattern prefix-matches a present element, or absent pattern meets absent element); an empty list gives false |
| `RegexMatching.AbsentPatternMatchesOnlyAbsence` | watcher.py:38-50 | a matcher built from no pattern or an empty pattern matches a name iff the name is absent |
| `RegexMatching.PresentPatternMatchesByPrefix` | watcher.py:45-48 | a matcher built from a non-empty pattern matches a name iff the name is present and the pattern matches at its start; it never matches an absent name |
| `RegexMatching.ClassMatchesIfAnyElementMatches` | watcher.py:42-52 | a present class matches iff there is a pattern and it prefix-matches at least one element; so an empty tuple never matches and a pattern-less matcher never matches a present class |
| `RegexMatching.AbsentClassMatchesOnlyNoPattern` | watcher.py:42-50 | an absent class is matched exactly by a pattern-less matcher |
| `Rules.NewRule` | watcher.py:56-60 | the rule keeps its property, edge kind and command, and compiles its pattern with the truthiness rule |
| `Rules.Rule.HandleChange` | watcher.py:62-79 | the loop over NAME and CLASS runs the command exactly once when the selected property changed and the edge occurred, and otherwise runs nothing; so it runs the command at most once per call |
| `Rules.UnchangedPropertyNeverFires` | watcher.py:65-79 | a rule whose selected property has the same old and new value never fires, whatever the edge kind or match state |
| `Rules.EdgesAreExclusive` | watcher.py:67-76 | for the same property and matcher, `OnMatch` fires iff the value changed, matches now and did not match before; `StoppedMatching` fires iff it changed, matched before and does not match now; both never fire on one transition |
| `Rules.OnlySelectedPropertyMatters` | watcher.py:65-68 | the firing decision depends only on the selected property's old and new values |
| `Rules.ClassRuleFiresOnAnyElement` | watcher.py:42-71 | an `OnMatch` CLASS rule with a pattern fires when the old class did not match and any one element of the new class tuple matches, whatever the other elements are |
| `Watching.FiringIndices` | watcher.py:18-19 | the evaluation pass yields exactly the indices of the rules that fire on (old, new), each once, in strictly increasing configuration order |
| `Watching.Watcher.constructor` | watcher.py:9-12 | stores the configuration and the initial identity, which defaults to (absent, absent); nothing has run yet |
| `Watching.Watcher.HandleUpdate` | watcher.py:14-22 | the new stored identity and the commands appended to the log are those of `Step`: nothing on an unchanged identity; otherwise the commands of the firing rules evaluated against the pre-update identity, then the new identity is committed |
| `Watching.StepCommitsUpdate` | watcher.py:15-22 | after any update the stored identity equals the delivered one, whether or not a rule fired; an unchanged delivery fires nothing |
| `Watching.RepeatedUpdateFiresNothing` | watcher.py:14-22 | delivering the same identity twice in a row fires nothing on the second call and keeps the identity |
| `Watching.FiredInConfigOrder` | watcher.py:18-19 | on a changed update the fired commands are the commands of the firing rules, each firing rule contributing exactly once, in configuration order, and no more than there are rules |
| `Watching.TraceAppend` | watcher.py:14-22 | handling two batches of deliveries equals handling the first and then the second from the identity the first left behind |
| `Watching.TraceEndsAtLastUpdate` | watcher.py:21-22 | after a non-empty sequence of deliveries the stored identity is the last one delivered |
| `Watching.RedundantDeliveryIsNoOp` | watcher.py:15-16 | a duplicated delivery anywhere in a stream changes neither the final identity nor the commands run |
| `Watching.DefaultConfig` | watcher.py:93-96 | the entry point's two rules: NAME `OnMatch` without pattern runs the hide command; NAME `StoppedMatching` without pattern runs the show command |
| `Watching.DefaultConfigHidesAndShows` | watcher.py:93-96 | with those rules, focus going from a titled window to an untitled one and then to a titled one runs hide, then show |

## Left out

- `main`'s X11 plumbing (watcher.py:98-130): display connection, atom interning, event masks and the blocking
  event loop. This is I/O against the window system. A stream of `handle_update` calls is modelled by `Trace`.
- `subprocess.run` and the whitespace split of the command (watcher.py:81-85). A run is recorded as the
  command string. An exception from `subprocess.run` (a missing executable, say) would abort the rest of the
  update and skip the commit in the source. `main`'s loop (watcher.py:117-130) has no handler, so the
  exception would also end the daemon. The model assumes every run returns.
- The `re` engine. It is the parameter `engine(pattern, haystack)`, and its matching semantics are not
  modelled. An invalid pattern, which makes `re.compile` raise at rule construction, is not modelled either,
  because the engine is total.
- The numeric `.value` of `PropType`, used as a tuple index at watcher.py:66-68. The property is selected by
  `Rules.Select` instead. `RuleType` is only compared as an enum (watcher.py:69, 73). Because the Dafny
  datatypes are exhaustive, the source's silent "never fires" for a property or edge value outside the
  enums cannot occur.
