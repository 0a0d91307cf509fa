/**
 * The text layout of `toString`: the elements' texts separated by ", "
 * and enclosed in "{ " and " }". The text of one element is a parameter
 * `toStr`, standing for the scalar's own conversion, whose digits are not
 * modelled.
 */
module Render {

  /** The texts of the elements joined by ", ", built from the front. */
  function Join(s: seq<int>, toStr: int -> string): string
    requires |s| > 0
  {
    if |s| == 1 then toStr(s[0]) else toStr(s[0]) + ", " + Join(s[1..], toStr)
  }

  /** The rendering of a non-empty vector. */
  function Braced(s: seq<int>, toStr: int -> string): string
    requires |s| > 0
  {
    "{ " + Join(s, toStr) + " }"
  }

  /** What the loop of `toString` has appended after visiting `s`: each element's text followed by ", ". */
  function Leading(s: seq<int>, toStr: int -> string): string {
    if s == [] then "" else Leading(s[..|s| - 1], toStr) + toStr(s[|s| - 1]) + ", "
  }

  /** Visiting one more element at the front adds its text and a separator at the front. */
  lemma {:induction false} LeadingCons(x: int, s: seq<int>, toStr: int -> string)
    ensures Leading([x] + s, toStr) == toStr(x) + ", " + Leading(s, toStr)
  {
    if s != [] {
      var p := s[..|s| - 1];
      assert ([x] + s)[..|[x] + s| - 1] == [x] + p;
      LeadingCons(x, p, toStr);
    }
  }

  /** The loop's prefix followed by the last element's text is the joined text. */
  lemma {:induction false} LeadingThenLast(s: seq<int>, toStr: int -> string)
    requires |s| > 0
    ensures Leading(s[..|s| - 1], toStr) + toStr(s[|s| - 1]) == Join(s, toStr)
  {
    if |s| > 1 {
      var r := s[1..];
      assert s[..|s| - 1] == [s[0]] + r[..|r| - 1];
      LeadingCons(s[0], r[..|r| - 1], toStr);
      LeadingThenLast(r, toStr);
      assert r[|r| - 1] == s[|s| - 1];
    }
  }

  /** A one-element vector renders as "{ x }". */
  lemma RenderSingle(x: int, toStr: int -> string)
    ensures Braced([x], toStr) == "{ " + toStr(x) + " }"
  {
  }

  /** `mono(5)` of length 3 renders as "{ 5, 5, 5 }" when 5 converts to "5". */
  lemma RenderMonoOfFive(toStr: int -> string)
    requires toStr(5) == "5"
    ensures Braced([5, 5, 5], toStr) == "{ 5, 5, 5 }"
  {
    assert [5, 5, 5][1..] == [5, 5];
    assert [5, 5][1..] == [5];
  }

  /** Appending an element appends a separator and its text. */
  lemma {:induction false} JoinAppend(s: seq<int>, x: int, toStr: int -> string)
    requires |s| > 0
    ensures Join(s + [x], toStr) == Join(s, toStr) + ", " + toStr(x)
  {
    assert (s + [x])[1..] == s[1..] + [x];
    if |s| > 1 {
      JoinAppend(s[1..], x, toStr);
    }
  }

  /** The rendering opens with "{ " and closes with " }". */
  lemma RenderFraming(s: seq<int>, toStr: int -> string)
    requires |s| > 0
    ensures Braced(s, toStr)[..2] == "{ "
    ensures Braced(s, toStr)[|Braced(s, toStr)| - 2..] == " }"
  {
  }
}
