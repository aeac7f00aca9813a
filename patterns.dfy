/**
 * The three abbreviation patterns of the validators, `[A-Z]+`, `[A-Z]+\d*` and `[A-Z_]+`, as
 * `re.match` applies them: anchored at the start of the string only, greedy, and succeeding on
 * the longest prefix that fits, whatever follows it.
 */
module Patterns {
  import opened Wrappers

  datatype CharClass = Upper | UpperOrUnderscore | Digit

  predicate InClass(c: char, cls: CharClass)
  {
    match cls
    case Upper => 'A' <= c <= 'Z'
    case UpperOrUnderscore => ('A' <= c <= 'Z') || c == '_'
    case Digit => '0' <= c <= '9'
  }

  /** `C+` is `Plus(C)`; `C+D*` is `PlusStar(C, D)`. */
  datatype Pattern = Plus(first: CharClass) | PlusStar(first: CharClass, rest: CharClass)

  const EMPLOYEE_ABBREVIATION: Pattern := Plus(Upper)
  const ROOM_ABBREVIATION: Pattern := PlusStar(Upper, Digit)
  const COURSE_ABBREVIATION: Pattern := Plus(UpperOrUnderscore)

  /** Length of the longest prefix of `s` made of characters of `cls`. */
  function LeadingRun(s: string, cls: CharClass): (n: nat)
    ensures n <= |s|
    ensures forall i :: 0 <= i < n ==> InClass(s[i], cls)
    ensures n < |s| ==> !InClass(s[n], cls)
  {
    if |s| == 0 || !InClass(s[0], cls) then 0 else 1 + LeadingRun(s[1..], cls)
  }

  /** `re.match(p, s)`: the length of the matched prefix, or `None` when nothing matches. */
  function Match(p: Pattern, s: string): (r: Option<nat>)
    ensures r.Some? <==> |s| > 0 && InClass(s[0], p.first)
    ensures r.Some? ==> 1 <= r.value <= |s|
  {
    var n := LeadingRun(s, p.first);
    if n == 0 then None
    else
      match p
      case Plus(_) => Some(n)
      case PlusStar(_, rest) => Some(n + LeadingRun(s[n..], rest))
  }

  /** What `re.match(p, s) is not None` decides. */
  predicate Matches(p: Pattern, s: string)
  {
    Match(p, s).Some?
  }

  /**
   * The matched prefix is exactly what the pattern describes: a run of the first class,
   * followed (for `C+D*`) by a run of the second class, and it cannot be extended.
   */
  lemma MatchSpan(p: Pattern, s: string)
    requires Matches(p, s)
    ensures var n := Match(p, s).value;
      var k := LeadingRun(s, p.first);
      1 <= k <= n &&
      (forall i :: 0 <= i < k ==> InClass(s[i], p.first)) &&
      (k < |s| ==> !InClass(s[k], p.first)) &&
      (p.Plus? ==> n == k) &&
      (p.PlusStar? ==> (forall i :: k <= i < n ==> InClass(s[i], p.rest)) &&
                       (n < |s| ==> !InClass(s[n], p.rest)))
  {
    var n := Match(p, s).value;
    var k := LeadingRun(s, p.first);
    if p.PlusStar? {
      var m := LeadingRun(s[k..], p.rest);
      assert n == k + m;
      forall i | k <= i < n ensures InClass(s[i], p.rest) {
        assert s[k..][i - k] == s[i];
      }
      if n < |s| {
        assert s[k..][m] == s[n];
      }
    }
  }

  /**
   * Only the first character decides: whatever is appended to a matching string, it still
   * matches, and a string matches exactly when its first character does.
   */
  lemma MatchIgnoresSuffix(p: Pattern, s: string, t: string)
    requires |s| > 0
    ensures Matches(p, s + t) <==> Matches(p, s)
    ensures Matches(p, s) <==> Matches(p, s[..1])
  {
    assert (s + t)[0] == s[0];
    assert s[..1][0] == s[0];
  }

  /** "ABc" passes `[A-Z]+` although it is not upper case throughout; "aB" and "" fail. */
  lemma EmployeeAbbreviationExamples()
    ensures Matches(EMPLOYEE_ABBREVIATION, "ABc")
    ensures Match(EMPLOYEE_ABBREVIATION, "ABc") == Some(2)
    ensures !Matches(EMPLOYEE_ABBREVIATION, "aB")
    ensures !Matches(EMPLOYEE_ABBREVIATION, "")
  {
    assert LeadingRun("ABc", Upper) == 1 + LeadingRun("Bc", Upper);
    assert LeadingRun("Bc", Upper) == 1 + LeadingRun("c", Upper);
  }

  /** "HS07x" passes `[A-Z]+\d*`; the match stops before "x". "7A" fails. */
  lemma RoomAbbreviationExamples()
    ensures Match(ROOM_ABBREVIATION, "HS07x") == Some(4)
    ensures !Matches(ROOM_ABBREVIATION, "7A")
  {
    assert LeadingRun("HS07x", Upper) == 1 + LeadingRun("S07x", Upper);
    assert LeadingRun("S07x", Upper) == 1 + LeadingRun("07x", Upper);
    assert "HS07x"[2..] == "07x";
    assert LeadingRun("07x", Digit) == 1 + LeadingRun("7x", Digit);
    assert LeadingRun("7x", Digit) == 1 + LeadingRun("x", Digit);
  }

  /** "_X" and "B_INF" pass `[A-Z_]+`; "b_INF" fails. */
  lemma CourseAbbreviationExamples()
    ensures Matches(COURSE_ABBREVIATION, "_X")
    ensures Matches(COURSE_ABBREVIATION, "B_INF")
    ensures !Matches(COURSE_ABBREVIATION, "b_INF")
  {
  }
}
