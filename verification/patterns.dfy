/** A compiled `java.util.regex.Pattern`, kept abstract: the model only needs
    what `Matcher.find()` + `group()` and `String.matches` answer for a name. */
module Patterns {
  import opened Wrappers

  /** `find(s)` is the first match of the pattern anywhere in `s` (None when
      `Matcher.find()` fails); `matches(s)` is whether the whole of `s` matches. */
  datatype Pattern = Pattern(find: string -> Option<string>, matches: string -> bool)

  /** `pattern.matcher(s).find()`. */
  predicate Found(p: Pattern, s: string)
  {
    p.find(s).Some?
  }

  /** `t` occurs in `s` starting at index `i`. */
  predicate OccursAt(t: string, s: string, i: nat)
  {
    i + |t| <= |s| && s[i..i + |t|] == t
  }

  /** `t` occurs somewhere in `s`. */
  predicate Occurs(t: string, s: string)
  {
    exists i: nat | i <= |s| :: OccursAt(t, s, i)
  }

  /** The one assumption made about the engine: a match it finds is a piece of the input. */
  ghost predicate FindsSubstrings(p: Pattern)
  {
    forall s :: p.find(s).Some? ==> Occurs(p.find(s).value, s)
  }

  /** When the whole input matches, `find()` also succeeds (it can match from index 0). */
  ghost predicate WholeMatchIsFound(p: Pattern)
  {
    forall s :: p.matches(s) ==> p.find(s).Some?
  }
}
