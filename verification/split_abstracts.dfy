/**
 * Splitting an export of abstracts into one file per abstract: the export is
 * cut on the journal delimiter, the output directory is cleared of regular
 * files, section `z` is written to `output_section_{z}.txt`, and section 0
 * (the text before the first delimiter) is deleted again.
 */
module SplitAbstracts {
  import opened Text

  /** The delimiter the export is cut on. */
  const Delimiter: string := ". Am J Epidemiol."

  // ---------------------------------------------------------------------------
  // `content.split(delimiter)`
  // ---------------------------------------------------------------------------

  /**
   * Python's `str.split(sep)` for a non-empty `sep`: cut at the leftmost
   * occurrence, then go on after it, so occurrences never overlap.
   */
  function Split(s: string, d: string): (r: seq<string>)
    requires d != []
    ensures |r| >= 1
    decreases |s|
  {
    match FindFirst(s, d)
    case None => [s]
    case Some(i) => [s[..i]] + Split(s[i + |d|..], d)
  }

  /** `d.join(parts)`. */
  function Join(parts: seq<string>, d: string): string
    decreases |parts|
  {
    if |parts| == 0 then ""
    else if |parts| == 1 then parts[0]
    else parts[0] + d + Join(parts[1..], d)
  }

  /** Python's `s.count(d)`: occurrences found left to right, none overlapping. */
  function CountOcc(s: string, d: string): nat
    requires d != []
    decreases |s|
  {
    match FindFirst(s, d)
    case None => 0
    case Some(i) => 1 + CountOcc(s[i + |d|..], d)
  }

  /** Joining the sections with the delimiter gives back the content exactly. */
  lemma {:induction false} SplitJoin(s: string, d: string)
    requires d != []
    ensures Join(Split(s, d), d) == s
    decreases |s|
  {
    match FindFirst(s, d)
    case None =>
    case Some(i) =>
      var rest := s[i + |d|..];
      SplitJoin(rest, d);
      JoinCons(s[..i], Split(rest, d), d);
      CutAround(s, d, i);
  }

  lemma CutAround(s: string, d: string, i: nat)
    requires OccursAt(s, d, i)
    ensures s == s[..i] + d + s[i + |d|..]
  {
    assert s == s[..i] + s[i..];
    assert s[i..] == s[i..i + |d|] + s[i + |d|..];
  }

  lemma JoinCons(a: string, rest: seq<string>, d: string)
    requires |rest| >= 1
    ensures Join([a] + rest, d) == a + d + Join(rest, d)
  {
    assert ([a] + rest)[1..] == rest;
  }

  /** One section more than there are delimiters. */
  lemma {:induction false} SplitCount(s: string, d: string)
    requires d != []
    ensures |Split(s, d)| == CountOcc(s, d) + 1
    decreases |s|
  {
    match FindFirst(s, d)
    case None =>
    case Some(i) =>
      SplitCount(s[i + |d|..], d);
  }

  lemma OccursInPrefix(s: string, d: string, i: nat, j: nat)
    requires d != [] && i <= |s| && OccursAt(s[..i], d, j)
    ensures OccursAt(s, d, j) && j < i
  {
    assert s[..i][j..j + |d|] == s[j..j + |d|];
  }

  /** No section contains the delimiter. */
  lemma {:induction false} SplitSectionsFree(s: string, d: string)
    requires d != []
    ensures forall k :: 0 <= k < |Split(s, d)| ==> !Contains(Split(s, d)[k], d)
    decreases |s|
  {
    match FindFirst(s, d)
    case None =>
    case Some(i) =>
      var rest := s[i + |d|..];
      SplitSectionsFree(rest, d);
      var r := Split(s, d);
      assert r[1..] == Split(rest, d);
      forall j: nat | OccursAt(s[..i], d, j)
        ensures false
      {
        OccursInPrefix(s, d, i, j);
      }
      assert !Contains(r[0], d);
      forall k | 1 <= k < |r|
        ensures !Contains(r[k], d)
      {
        assert r[k] == Split(rest, d)[k - 1];
      }
  }

  /** Without a delimiter there is a single section, the whole content. */
  lemma SplitNoDelimiter(s: string, d: string)
    requires d != [] && !Contains(s, d)
    ensures Split(s, d) == [s]
  {
  }

  // ---------------------------------------------------------------------------
  // Section file names
  // ---------------------------------------------------------------------------

  function DigitChar(n: nat): char
    requires n < 10
  {
    ('0' as int + n) as char
  }

  /** `f"{n}"` for a non-negative integer. */
  function NatToString(n: nat): (r: string)
    ensures IsDigits(r)
    decreases n
  {
    if n < 10 then [DigitChar(n)] else NatToString(n / 10) + [DigitChar(n % 10)]
  }

  /** `int(t)` for a digit string. */
  function DigitsValue(t: string): int
    decreases |t|
  {
    if t == [] then 0 else DigitsValue(t[..|t| - 1]) * 10 + (t[|t| - 1] as int - '0' as int)
  }

  lemma {:induction false} NatToStringRoundTrip(n: nat)
    ensures DigitsValue(NatToString(n)) == n
    decreases n
  {
    if n >= 10 {
      NatToStringRoundTrip(n / 10);
      var t := NatToString(n);
      assert t[..|t| - 1] == NatToString(n / 10);
    }
  }

  /** The digits are those `f"{n}"` writes: no leading zero unless `n` is 0 itself. */
  lemma {:induction false} NatToStringCanonical(n: nat)
    ensures |NatToString(n)| == 1 || NatToString(n)[0] != '0'
    ensures NatToString(n) == "0" <==> n == 0
    decreases n
  {
    if n >= 10 {
      NatToStringCanonical(n / 10);
      var t := NatToString(n / 10);
      assert NatToString(n)[0] == t[0];
    }
  }

  const SectionPrefix: string := "output_section_"
  const SectionSuffix: string := ".txt"

  /** The file section `z` is written to, inside the output directory. */
  function SectionName(z: nat): string {
    SectionPrefix + NatToString(z) + SectionSuffix
  }

  /** Different sections go to different files. */
  lemma SectionNameInjective(a: nat, b: nat)
    ensures SectionName(a) == SectionName(b) <==> a == b
  {
    if SectionName(a) == SectionName(b) {
      var na, nb := SectionName(a), SectionName(b);
      assert na[|SectionPrefix|..|na| - |SectionSuffix|] == NatToString(a);
      assert nb[|SectionPrefix|..|nb| - |SectionSuffix|] == NatToString(b);
      NatToStringRoundTrip(a);
      NatToStringRoundTrip(b);
    }
  }

  // ---------------------------------------------------------------------------
  // The output directory
  // ---------------------------------------------------------------------------

  /** A directory entry: a regular file with its text, or a sub-directory. */
  datatype Entry = File(text: string) | Directory

  /** An entry `name` that is a sub-directory: it cannot be opened for writing nor removed as a file. */
  predicate Blocks(m: map<string, Entry>, name: string) {
    name in m && m[name].Directory?
  }

  /** The directory once every regular file is removed. */
  function Cleaned(m: map<string, Entry>): map<string, Entry> {
    map n | n in m && m[n].Directory? :: m[n]
  }

  /** Sections `k..` written over `m`, in order. */
  function WriteAll(m: map<string, Entry>, sections: seq<string>, k: nat): map<string, Entry>
    requires k <= |sections|
    decreases |sections| - k
  {
    if k == |sections| then m
    else WriteAll(m[SectionName(k) := File(sections[k])], sections, k + 1)
  }

  /** The directory the script leaves behind when it runs to completion. */
  function Expected(m: map<string, Entry>, content: string): map<string, Entry> {
    WriteAll(Cleaned(m), Split(content, Delimiter), 0) - {SectionName(0)}
  }

  /** The run gets through every write: no section file name is taken by a sub-directory. */
  predicate Writable(m: map<string, Entry>, n: nat) {
    forall z: nat :: z < n ==> !Blocks(m, SectionName(z))
  }

  /** What `WriteAll` leaves at one name: the section written there, if any, or the old entry. */
  lemma {:induction false} WriteAllAt(m: map<string, Entry>, sections: seq<string>, k: nat, name: string)
    requires k <= |sections|
    ensures name in WriteAll(m, sections, k) <==>
      name in m || exists z: nat :: k <= z < |sections| && SectionName(z) == name
    ensures forall z: nat :: k <= z < |sections| && SectionName(z) == name ==>
      name in WriteAll(m, sections, k) && WriteAll(m, sections, k)[name] == File(sections[z])
    ensures (forall z: nat :: k <= z < |sections| ==> SectionName(z) != name) && name in m ==>
      WriteAll(m, sections, k)[name] == m[name]
    decreases |sections| - k
  {
    if k < |sections| {
      var m' := m[SectionName(k) := File(sections[k])];
      WriteAllAt(m', sections, k + 1, name);
      forall z: nat | k < z < |sections|
        ensures SectionName(z) != SectionName(k)
      {
        SectionNameInjective(z, k);
      }
      if name == SectionName(k) {
        forall z: nat | k <= z < |sections| && SectionName(z) == name
          ensures z == k
        {
          SectionNameInjective(z, k);
        }
      }
    }
  }

  /**
   * A completed run leaves sections 1 to n-1 in their files, no
   * `output_section_0.txt`, every sub-directory as it was, and nothing else.
   */
  lemma ExpectedContents(m: map<string, Entry>, content: string)
    requires Writable(m, |Split(content, Delimiter)|)
    ensures var e, sections := Expected(m, content), Split(content, Delimiter);
      && SectionName(0) !in e
      && (forall z: nat :: 1 <= z < |sections| ==> SectionName(z) in e && e[SectionName(z)] == File(sections[z]))
      && (forall name :: Blocks(m, name) ==> name in e && e[name] == Directory)
      && (forall name :: name in e ==> Blocks(m, name) || exists z: nat :: 1 <= z < |sections| && SectionName(z) == name)
  {
    var sections := Split(content, Delimiter);
    var c := Cleaned(m);
    var e := Expected(m, content);
    forall z: nat | 1 <= z < |sections|
      ensures SectionName(z) in e && e[SectionName(z)] == File(sections[z])
    {
      WriteAllAt(c, sections, 0, SectionName(z));
      SectionNameInjective(z, 0);
    }
    forall name | Blocks(m, name)
      ensures name in e && e[name] == Directory
    {
      WriteAllAt(c, sections, 0, name);
      assert name != SectionName(0);
    }
    forall name | name in e
      ensures Blocks(m, name) || exists z: nat :: 1 <= z < |sections| && SectionName(z) == name
    {
      WriteAllAt(c, sections, 0, name);
      if !Blocks(m, name) {
        var z: nat :| z < |sections| && SectionName(z) == name;
        assert z != 0;
      }
    }
  }

  /** An export without the delimiter leaves no section file at all: only the sub-directories remain. */
  lemma NoDelimiterNoSections(m: map<string, Entry>, content: string)
    requires !Contains(content, Delimiter) && !Blocks(m, SectionName(0))
    ensures Expected(m, content) == Cleaned(m)
  {
    SplitNoDelimiter(content, Delimiter);
    var c := Cleaned(m);
    var w := c[SectionName(0) := File(content)];
    assert WriteAll(c, [content], 0) == w;
    assert SectionName(0) !in c;
    assert w - {SectionName(0)} == c;
  }

  /** `individual_abstracts/` as the script sees it: file names mapped to entries. */
  class AbstractsDir {
    var entries: map<string, Entry>

    constructor(initial: map<string, Entry>)
      ensures entries == initial
    {
      entries := initial;
    }

    /** `os.remove`: fails on a missing name or a sub-directory. */
    method Remove(name: string) returns (ok: bool)
      modifies this
      ensures ok <==> name in old(entries) && old(entries)[name].File?
      ensures ok ==> entries == old(entries) - {name}
      ensures !ok ==> entries == old(entries)
    {
      if name in entries && entries[name].File? {
        entries := entries - {name};
        ok := true;
      } else {
        ok := false;
      }
    }

    /** `open(name, 'w').write(text)`: creates or overwrites a file; fails on a sub-directory. */
    method Write(name: string, text: string) returns (ok: bool)
      modifies this
      ensures ok <==> !Blocks(old(entries), name)
      ensures ok ==> entries == old(entries)[name := File(text)]
      ensures !ok ==> entries == old(entries)
    {
      if Blocks(entries, name) {
        ok := false;
      } else {
        entries := entries[name := File(text)];
        ok := true;
      }
    }

    /** The clean-up loop: every name listed that is a regular file is removed. */
    method RemoveRegularFiles()
      modifies this
      ensures entries == Cleaned(old(entries))
    {
      var names := entries.Keys;
      while names != {}
        invariant names <= old(entries).Keys
        invariant forall n :: n in entries <==> n in old(entries) && (n in names || old(entries)[n].Directory?)
        invariant forall n :: n in entries ==> entries[n] == old(entries)[n]
        decreases names
      {
        var name :| name in names;
        if entries[name].File? {
          var removed := Remove(name);
        }
        names := names - {name};
      }
    }

    /** The `enumerate` loop: section `z` goes to `SectionName(z)`; a failed write ends the run. */
    method WriteSections(sections: seq<string>) returns (ok: bool)
      modifies this
      ensures ok <==> Writable(old(entries), |sections|)
      ensures ok ==> entries == WriteAll(old(entries), sections, 0)
    {
      var z := 0;
      while z < |sections|
        invariant 0 <= z <= |sections|
        invariant WriteAll(entries, sections, z) == WriteAll(old(entries), sections, 0)
        invariant Writable(old(entries), z)
        invariant forall n :: Blocks(entries, n) <==> Blocks(old(entries), n)
      {
        ok := Write(SectionName(z), sections[z]);
        if !ok {
          return;
        }
        z := z + 1;
      }
      ok := true;
    }

    /**
     * The whole script on the export's `content`: clear the directory, write
     * every section, remove section 0. It stops at the first failed write.
     */
    method Run(content: string) returns (ok: bool)
      modifies this
      ensures ok <==> Writable(old(entries), |Split(content, Delimiter)|)
      ensures ok ==> entries == Expected(old(entries), content)
    {
      RemoveRegularFiles();
      var sections := Split(content, Delimiter);
      assert forall n :: Blocks(entries, n) <==> Blocks(old(entries), n);
      ok := WriteSections(sections);
      if !ok {
        return;
      }
      WriteAllAt(Cleaned(old(entries)), sections, 0, SectionName(0));
      var removed := Remove(SectionName(0));
    }
  }
}
