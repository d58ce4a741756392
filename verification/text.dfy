/** Character classes and substring facts shared by both scripts. */
module Text {

  datatype Option<+T> = None | Some(value: T)

  /** `[0-9]`; the model reads the regex class `\d` as ASCII digits too. */
  predicate IsDigit(c: char) {
    '0' <= c <= '9'
  }

  /** `\d+`: a non-empty run of digits. */
  predicate IsDigits(t: string) {
    |t| > 0 && forall k :: 0 <= k < |t| ==> IsDigit(t[k])
  }

  /** `needle` occurs in `hay` at index `i`. */
  predicate OccursAt(hay: string, needle: string, i: nat) {
    i + |needle| <= |hay| && hay[i..i + |needle|] == needle
  }

  lemma OccursAtShift(hay: string, needle: string, i: nat)
    requires |hay| > 0
    ensures OccursAt(hay[1..], needle, i) <==> OccursAt(hay, needle, i + 1)
  {
    if i + |needle| <= |hay[1..]| {
      assert hay[1..][i..i + |needle|] == hay[i + 1..i + 1 + |needle|];
    }
  }

  /** Leftmost occurrence of `needle` in `hay`, as Python's `str.find`. */
  function FindFirst(hay: string, needle: string): (r: Option<nat>)
    ensures r.Some? ==> OccursAt(hay, needle, r.value)
    ensures r.Some? ==> forall j: nat :: j < r.value ==> !OccursAt(hay, needle, j)
    ensures r.None? ==> forall j: nat :: !OccursAt(hay, needle, j)
    decreases |hay|
  {
    if |hay| < |needle| then
      None
    else if hay[..|needle|] == needle then
      Some(0)
    else
      var rest := FindFirst(hay[1..], needle);
      assert forall j: nat :: 0 < j ==> (OccursAt(hay, needle, j) <==> OccursAt(hay[1..], needle, j - 1)) by {
        forall j: nat | 0 < j
          ensures OccursAt(hay, needle, j) <==> OccursAt(hay[1..], needle, j - 1)
        {
          OccursAtShift(hay, needle, j - 1);
        }
      }
      assert hay[0..|needle|] == hay[..|needle|];
      assert !OccursAt(hay, needle, 0);
      match rest
      case None => None
      case Some(i) => Some(i + 1)
  }

  /** Python's `needle in hay`. */
  predicate Contains(hay: string, needle: string) {
    FindFirst(hay, needle).Some?
  }

  /** `hay.replace(c, '')`: every occurrence of `c` deleted, the rest kept in order. */
  function RemoveChar(s: string, c: char): string {
    if s == [] then []
    else (if s[0] == c then [] else [s[0]]) + RemoveChar(s[1..], c)
  }

  lemma {:induction false} RemoveCharDeletes(s: string, c: char)
    ensures c !in RemoveChar(s, c)
    ensures multiset(RemoveChar(s, c)) == multiset(s)[c := 0]
    ensures |RemoveChar(s, c)| == |s| - multiset(s)[c]
  {
    if s != [] {
      RemoveCharDeletes(s[1..], c);
      assert s == [s[0]] + s[1..];
    }
  }

  lemma {:induction false} RemoveCharConcat(a: string, b: string, c: char)
    ensures RemoveChar(a + b, c) == RemoveChar(a, c) + RemoveChar(b, c)
  {
    if a != [] {
      assert (a + b)[1..] == a[1..] + b;
      RemoveCharConcat(a[1..], b, c);
    } else {
      assert a + b == b;
    }
  }

  lemma {:induction false} RemoveCharAbsent(s: string, c: char)
    requires c !in s
    ensures RemoveChar(s, c) == s
  {
    if s != [] {
      assert s[0] != c;
      RemoveCharAbsent(s[1..], c);
      assert s == [s[0]] + s[1..];
    }
  }
}
