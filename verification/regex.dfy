/**
 * The fragment of ECMAScript regular expressions the candidate form uses:
 * a pattern anchored at the start (`^`), optionally at the end (`$`), made of
 * bracket classes each repeated `{min,max}` times (`+` is `{1,}`, a literal
 * character is a one-character class taken once). `Test` is
 * `RegExp.prototype.test`: some way of choosing the repeat counts consumes
 * the input (or a prefix of it, when the end is not anchored).
 */
module Regex {
  import opened Options

  /** ECMAScript `\s`: the white-space and line-terminator characters. */
  predicate IsSpace(c: char) {
    || c == '\t' || c == '\n' || c == '\U{B}' || c == '\U{C}' || c == '\r' || c == ' '
    || c == '\U{A0}' || c == '\U{1680}' || ('\U{2000}' <= c <= '\U{200A}')
    || c == '\U{2028}' || c == '\U{2029}' || c == '\U{202F}' || c == '\U{205F}'
    || c == '\U{3000}' || c == '\U{FEFF}'
  }

  /** One member of a bracket class: an inclusive range such as `A-Z`, or `\s`. */
  datatype ClassItem = Range(lo: char, hi: char) | Space

  predicate InItem(c: char, item: ClassItem) {
    match item
    case Range(lo, hi) => lo <= c <= hi
    case Space => IsSpace(c)
  }

  /** `c` matches one of the class's members. */
  predicate InClass(c: char, cls: seq<ClassItem>) {
    cls != [] && (InItem(c, cls[0]) || InClass(c, cls[1..]))
  }

  /** Every character of `s` matches the class. */
  predicate AllIn(s: string, cls: seq<ClassItem>) {
    s == "" || (InClass(s[0], cls) && AllIn(s[1..], cls))
  }

  lemma InSingleRange(c: char, lo: char, hi: char)
    ensures InClass(c, [Range(lo, hi)]) <==> lo <= c <= hi
  {
    assert [Range(lo, hi)][1..] == [];
  }

  lemma {:induction false} AllInEach(s: string, cls: seq<ClassItem>)
    ensures AllIn(s, cls) <==> forall i :: 0 <= i < |s| ==> InClass(s[i], cls)
  {
    if s != "" {
      AllInEach(s[1..], cls);
      assert forall i :: 1 <= i < |s| ==> s[i] == s[1..][i - 1];
    }
  }

  /** `[cls]{min,max}`; `max` is `None` for an unbounded repeat. */
  datatype Term = Term(cls: seq<ClassItem>, min: nat, max: Option<nat>)

  /** A start-anchored pattern; `anchoredEnd` records a trailing `$`. */
  datatype Pattern = Pattern(terms: seq<Term>, anchoredEnd: bool)

  /** A literal string, one single-character term per character. */
  function Literal(w: string): (terms: seq<Term>)
    ensures |terms| == |w|
  {
    seq(|w|, i requires 0 <= i < |w| => Term([Range(w[i], w[i])], 1, Some(1)))
  }

  /** Whether `terms` match a prefix of `s` (all of `s` when `anchoredEnd`). */
  function MatchFrom(terms: seq<Term>, s: string, anchoredEnd: bool): bool
    decreases |terms|, |s| + 2
  {
    if terms == [] then !anchoredEnd || s == ""
    else TryCounts(terms, s, anchoredEnd, terms[0].min)
  }

  /** Backtracking over the repeat count of the first term, from `k` upwards. */
  function TryCounts(terms: seq<Term>, s: string, anchoredEnd: bool, k: nat): bool
    requires terms != []
    decreases |terms|, |s| + 1 - k
  {
    if k > |s| || (terms[0].max.Some? && k > terms[0].max.value) then false
    else
      (AllIn(s[..k], terms[0].cls) && MatchFrom(terms[1..], s[k..], anchoredEnd))
      || TryCounts(terms, s, anchoredEnd, k + 1)
  }

  /** `RegExp.prototype.test` for a start-anchored pattern. */
  function Test(p: Pattern, s: string): bool {
    MatchFrom(p.terms, s, p.anchoredEnd)
  }

  /** A term repeated exactly `n` times consumes exactly the next `n` characters. */
  lemma MatchFixed(terms: seq<Term>, s: string, anchoredEnd: bool)
    requires terms != [] && terms[0].max == Some(terms[0].min)
    ensures MatchFrom(terms, s, anchoredEnd) <==>
              var n := terms[0].min;
              n <= |s| && AllIn(s[..n], terms[0].cls) && MatchFrom(terms[1..], s[n..], anchoredEnd)
  {
    var n := terms[0].min;
    if n <= |s| {
      assert !TryCounts(terms, s, anchoredEnd, n + 1);
    }
  }

  lemma {:induction false} TryPlusToEnd(t: Term, s: string, k: nat)
    requires t.max.None? && k >= 1
    ensures TryCounts([t], s, true, k) <==> k <= |s| && AllIn(s, t.cls)
    decreases |s| + 1 - k
  {
    if k <= |s| {
      assert [t][1..] == [];
      if k < |s| {
        TryPlusToEnd(t, s, k + 1);
      } else {
        assert s[..k] == s;
      }
    }
  }

  /** `^[cls]+$` holds exactly of the non-empty strings drawn from the class. */
  lemma MatchPlusToEnd(t: Term, s: string)
    requires t.min == 1 && t.max.None?
    ensures MatchFrom([t], s, true) <==> |s| >= 1 && AllIn(s, t.cls)
  {
    TryPlusToEnd(t, s, 1);
  }

  /** A literal without `$` holds exactly of the strings it begins. */
  lemma {:induction false} MatchLiteral(w: string, s: string)
    ensures MatchFrom(Literal(w), s, false) <==> |w| <= |s| && s[..|w|] == w
  {
    if w != "" {
      var terms := Literal(w);
      assert terms[1..] == Literal(w[1..]);
      MatchFixed(terms, s, false);
      if 1 <= |s| {
        MatchLiteral(w[1..], s[1..]);
        assert AllIn(s[..1], [Range(w[0], w[0])]) <==> s[0] == w[0] by {
          assert s[..1][1..] == "";
          InSingleRange(s[0], w[0], w[0]);
        }
        if |w| <= |s| {
          assert s[..|w|] == [s[0]] + s[1..][..|w| - 1];
          assert w == [w[0]] + w[1..];
        }
      }
    }
  }
}
