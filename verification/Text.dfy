/** The few string operations that the modelled code decides on. */
module Text {

  /** strings.Contains */
  predicate Contains(s: string, part: string) {
    part <= s || (s != [] && Contains(s[1..], part))
  }

  /** `part` stands at position `i` of `s`. */
  predicate OccursAt(s: string, part: string, i: int) {
    0 <= i <= |s| - |part| && s[i..i + |part|] == part
  }

  lemma OccursShifted(s: string, part: string, i: int)
    requires s != [] && 0 <= i
    ensures OccursAt(s[1..], part, i) <==> OccursAt(s, part, i + 1)
  {
    if 0 <= i <= |s| - 1 - |part| {
      assert s[1..][i..i + |part|] == s[i + 1..i + 1 + |part|];
    }
  }

  lemma {:induction false} ContainsIff(s: string, part: string)
    ensures Contains(s, part) <==> exists i :: OccursAt(s, part, i)
  {
    if part <= s {
      assert OccursAt(s, part, 0);
    } else if s != [] {
      assert !OccursAt(s, part, 0);
      ContainsIff(s[1..], part);
      if i :| OccursAt(s[1..], part, i) {
        OccursShifted(s, part, i);
      } else if i :| OccursAt(s, part, i) {
        OccursShifted(s, part, i - 1);
      }
    }
  }

  lemma {:induction false} MissingLastCharacter(s: string, part: string)
    requires part != [] && forall i :: 0 <= i < |s| ==> s[i] != part[|part| - 1]
    ensures !Contains(s, part)
  {
    if s != [] {
      MissingLastCharacter(s[1..], part);
      if |part| <= |s| { assert s[|part| - 1] != part[|part| - 1]; }
    }
  }

  predicate ContainsAny(s: string, parts: seq<string>) {
    exists i :: 0 <= i < |parts| && Contains(s, parts[i])
  }

  /** strings.Join */
  function Join(parts: seq<string>, separator: string): string {
    if parts == [] then ""
    else if |parts| == 1 then parts[0]
    else parts[0] + separator + Join(parts[1..], separator)
  }

  lemma {:induction false} JoinAppend(parts: seq<string>, last: string, separator: string)
    requires parts != []
    ensures Join(parts + [last], separator) == Join(parts, separator) + separator + last
  {
    var all := parts + [last];
    assert all[1..] == parts[1..] + [last];
    if |parts| > 1 {
      JoinAppend(parts[1..], last, separator);
    }
  }

  /** strings.ToLower, for a given lower-casing of single characters. */
  function Lowered(s: string, lower: char -> char): (r: string)
    ensures |r| == |s| && forall i :: 0 <= i < |s| ==> r[i] == lower(s[i])
  {
    seq(|s|, i requires 0 <= i < |s| => lower(s[i]))
  }
}
