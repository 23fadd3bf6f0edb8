/**
 * The Python string operations the integration relies on: `str.strip`, `str.lower`,
 * `sep.join`, `str.split` and `str.replace`, as functions on `seq<char>`.
 */
module Text {

  /** The characters `str.isspace` accepts. */
  predicate IsSpace(c: char) {
    c == ' ' || c == '\t' || c == '\n' || c == '\r' || c == '\U{0B}' || c == '\U{0C}'
    || ('\U{1C}' <= c <= '\U{1F}') || c == '\U{85}' || c == '\U{A0}' || c == '\U{1680}'
    || ('\U{2000}' <= c <= '\U{200A}') || c == '\U{2028}' || c == '\U{2029}'
    || c == '\U{202F}' || c == '\U{205F}' || c == '\U{3000}'
  }

  function TrimStart(s: string): (r: string)
    ensures |r| <= |s| && r == s[|s| - |r|..]
    ensures r == [] || !IsSpace(r[0])
    ensures forall i :: 0 <= i < |s| - |r| ==> IsSpace(s[i])
  {
    if s != [] && IsSpace(s[0]) then TrimStart(s[1..]) else s
  }

  function TrimEnd(s: string): (r: string)
    ensures |r| <= |s| && r == s[..|r|]
    ensures r == [] || !IsSpace(r[|r| - 1])
    ensures forall i :: |r| <= i < |s| ==> IsSpace(s[i])
  {
    if s != [] && IsSpace(s[|s| - 1]) then TrimEnd(s[..|s| - 1]) else s
  }

  /** `s.strip()`: the longest slice of `s` that neither starts nor ends with a space. */
  function Strip(s: string): (r: string)
  {
    TrimEnd(TrimStart(s))
  }

  /** `c.lower()` for the basic Latin and Latin-1 upper-case letters. */
  function LowerChar(c: char): char {
    if 'A' <= c <= 'Z' || ('\U{C0}' <= c <= '\U{DE}' && c != '\U{D7}')
    then (c as int + 32) as char
    else c
  }

  function Lower(s: string): (r: string)
    ensures |r| == |s| && forall i :: 0 <= i < |s| ==> r[i] == LowerChar(s[i])
  {
    if s == [] then [] else [LowerChar(s[0])] + Lower(s[1..])
  }

  /** `s.strip().lower()`, the form in which street names are compared. */
  function Normalize(s: string): string {
    Lower(Strip(s))
  }

  lemma StripEnds(s: string)
    ensures Strip(s) == [] || (!IsSpace(Strip(s)[0]) && !IsSpace(Strip(s)[|Strip(s)| - 1]))
  {
    var t := TrimStart(s);
    var r := TrimEnd(t);
    if r != [] {
      assert r[0] == t[0];
    }
  }

  /** Normalizing twice is normalizing once. */
  lemma {:induction false} NormalizeIdempotent(s: string)
    ensures Normalize(Normalize(s)) == Normalize(s)
  {
    var r := Strip(s);
    StripEnds(s);
    var l := Lower(r);
    assert forall c :: IsSpace(LowerChar(c)) == IsSpace(c);
    assert l == [] || (!IsSpace(l[0]) && !IsSpace(l[|l| - 1]));
    assert TrimStart(l) == l;
    assert TrimEnd(l) == l;
    assert Lower(l) == l by {
      assert forall c :: LowerChar(LowerChar(c)) == LowerChar(c);
    }
  }

  /** `sep.join(parts)`. */
  function Join(sep: string, parts: seq<string>): string
  {
    if parts == [] then []
    else if |parts| == 1 then parts[0]
    else Join(sep, parts[..|parts| - 1]) + sep + parts[|parts| - 1]
  }

  function NonEmpty(parts: seq<string>): (r: seq<string>)
    ensures forall p :: p in r ==> p != [] && p in parts
    ensures |r| <= |parts|
  {
    if parts == [] then []
    else if parts[0] == [] then NonEmpty(parts[1..])
    else [parts[0]] + NonEmpty(parts[1..])
  }

  /** `sep.join(filter(None, parts))`. */
  function JoinNonEmpty(sep: string, parts: seq<string>): string {
    Join(sep, NonEmpty(parts))
  }

  lemma {:induction false} NonEmptyAppend(a: seq<string>, b: seq<string>)
    ensures NonEmpty(a + b) == NonEmpty(a) + NonEmpty(b)
  {
    if a != [] {
      assert (a + b)[1..] == a[1..] + b;
      NonEmptyAppend(a[1..], b);
    } else {
      assert a + b == b;
    }
  }

  /** An empty part leaves no gap: inserting one anywhere changes nothing. */
  lemma {:induction false} JoinNonEmptySkipsEmpty(sep: string, a: seq<string>, b: seq<string>)
    ensures JoinNonEmpty(sep, a + [""] + b) == JoinNonEmpty(sep, a + b)
  {
    NonEmptyAppend(a + [""], b);
    NonEmptyAppend(a, [""]);
    NonEmptyAppend(a, b);
    assert NonEmpty([""]) == [];
    assert NonEmpty(a) + [] == NonEmpty(a);
  }

  /** No part survives the filter exactly when every part is empty. */
  lemma {:induction false} NonEmptyNone(parts: seq<string>)
    ensures NonEmpty(parts) == [] <==> forall i :: 0 <= i < |parts| ==> parts[i] == []
  {
    if parts != [] {
      NonEmptyNone(parts[1..]);
      assert forall i :: 1 <= i < |parts| ==> parts[i] == parts[1..][i - 1];
    }
  }

  /** The joined text is empty exactly when every part is. */
  lemma JoinNonEmptyEmpty(sep: string, parts: seq<string>)
    ensures JoinNonEmpty(sep, parts) == [] <==> forall i :: 0 <= i < |parts| ==> parts[i] == []
  {
    NonEmptyNone(parts);
    var kept := NonEmpty(parts);
    if kept != [] {
      var last := kept[|kept| - 1];
      assert last in kept;
      assert |Join(sep, kept)| >= |last|;
    }
  }

  /** Two parts: both present give `a + sep + b`; an empty one drops out with its separator. */
  lemma JoinNonEmptyTwo(sep: string, a: string, b: string)
    ensures JoinNonEmpty(sep, [a, b]) ==
      if a == [] then b else if b == [] then a else a + sep + b
  {
    assert [a, b][1..] == [b];
    assert [b][1..] == [];
    if a == [] {
      assert NonEmpty([a, b]) == NonEmpty([b]);
    } else if b == [] {
      assert NonEmpty([a, b]) == [a];
    } else {
      assert NonEmpty([a, b]) == [a, b];
      assert [a, b][..1] == [a];
      assert Join(sep, [a, b]) == Join(sep, [a]) + sep + b;
    }
  }

  /** Four non-empty parts are all kept, each pair separated by `sep`. */
  lemma JoinNonEmptyFour(sep: string, a: string, b: string, c: string, d: string)
    requires a != [] && b != [] && c != [] && d != []
    ensures JoinNonEmpty(sep, [a, b, c, d]) == a + sep + b + sep + c + sep + d
  {
    var parts := [a, b, c, d];
    assert parts[1..] == [b, c, d] && [b, c, d][1..] == [c, d] && [c, d][1..] == [d] && [d][1..] == [];
    assert NonEmpty([d]) == [d] + NonEmpty([]) == [d];
    assert NonEmpty([c, d]) == [c] + NonEmpty([d]) == [c, d];
    assert NonEmpty([b, c, d]) == [b] + NonEmpty([c, d]) == [b, c, d];
    assert NonEmpty(parts) == [a] + NonEmpty([b, c, d]) == parts;
    assert parts[..3] == [a, b, c] && [a, b, c][..2] == [a, b] && [a, b][..1] == [a];
    assert Join(sep, [a, b]) == a + sep + b;
    assert Join(sep, [a, b, c]) == a + sep + b + sep + c;
  }

  /** `s.split(c)` for a one-character separator: at least one part, never containing `c`. */
  function Split(s: string, c: char): (parts: seq<string>)
    ensures |parts| >= 1
    ensures forall p :: p in parts ==> c !in p
  {
    if s == [] then [""]
    else
      var rest := Split(s[1..], c);
      if s[0] == c then [""] + rest
      else [[s[0]] + rest[0]] + rest[1..]
  }

  lemma JoinCons(sep: string, p: string, ps: seq<string>)
    requires ps != []
    ensures Join(sep, [p] + ps) == p + sep + Join(sep, ps)
    decreases |ps|
  {
    var all := [p] + ps;
    var last := ps[|ps| - 1];
    assert all[..|all| - 1] == [p] + ps[..|ps| - 1] && all[|all| - 1] == last;
    if |ps| == 1 {
      assert all[..1] == [p];
    } else {
      var init := ps[..|ps| - 1];
      JoinCons(sep, p, init);
      calc {
        Join(sep, all);
        Join(sep, [p] + init) + sep + last;
        p + sep + Join(sep, init) + sep + last;
        p + sep + (Join(sep, init) + sep + last);
      }
    }
  }

  lemma JoinFirstExtended(sep: string, x: string, ps: seq<string>)
    requires ps != []
    ensures Join(sep, [x + ps[0]] + ps[1..]) == x + Join(sep, ps)
    decreases |ps|
  {
    var all := [x + ps[0]] + ps[1..];
    if |ps| == 1 {
      assert all == [x + ps[0]];
    } else {
      var init := ps[..|ps| - 1];
      var last := ps[|ps| - 1];
      assert all[..|all| - 1] == [x + init[0]] + init[1..];
      assert all[|all| - 1] == last;
      JoinFirstExtended(sep, x, init);
      calc {
        Join(sep, all);
        Join(sep, [x + init[0]] + init[1..]) + sep + last;
        x + Join(sep, init) + sep + last;
        x + (Join(sep, init) + sep + last);
      }
    }
  }

  /** Splitting on `c` and joining with `c` gives the string back. */
  lemma {:induction false} SplitJoin(s: string, c: char)
    ensures Join([c], Split(s, c)) == s
  {
    if s != [] {
      var rest := Split(s[1..], c);
      SplitJoin(s[1..], c);
      if s[0] == c {
        JoinCons([c], "", rest);
        assert s == [c] + s[1..];
      } else {
        JoinFirstExtended([c], [s[0]], rest);
        assert s == [s[0]] + s[1..];
      }
    }
  }

  predicate StartsWith(s: string, prefix: string) {
    |prefix| <= |s| && s[..|prefix|] == prefix
  }

  /** `s.replace(pat, rep)`: every occurrence of `pat`, found left to right without overlap, replaced. */
  function Replace(s: string, pat: string, rep: string): (r: string)
    requires pat != []
    ensures |rep| <= |pat| ==> |r| <= |s|
    decreases |s|
  {
    if StartsWith(s, pat) then rep + Replace(s[|pat|..], pat, rep)
    else if s == [] then []
    else [s[0]] + Replace(s[1..], pat, rep)
  }

  predicate OccursAt(s: string, pat: string, i: int) {
    0 <= i && i + |pat| <= |s| && s[i..i + |pat|] == pat
  }

  /** Where `pat` occurs nowhere, replacing it changes nothing. */
  lemma {:induction false} ReplaceAbsent(s: string, pat: string, rep: string)
    requires pat != []
    requires forall i :: !OccursAt(s, pat, i)
    ensures Replace(s, pat, rep) == s
    decreases |s|
  {
    if s != [] {
      assert !OccursAt(s, pat, 0);
      forall i
        ensures !OccursAt(s[1..], pat, i)
      {
        if OccursAt(s[1..], pat, i) {
          assert s[1..][i..i + |pat|] == s[i + 1..i + 1 + |pat|];
          assert OccursAt(s, pat, i + 1);
        }
      }
      ReplaceAbsent(s[1..], pat, rep);
      assert s == [s[0]] + s[1..];
    }
  }

  /** A trailing `pat` that starts nowhere earlier is the only occurrence replaced. */
  lemma {:induction false} ReplaceTrailing(u: string, pat: string, rep: string)
    requires pat != []
    requires forall i :: 0 <= i < |u| ==> !OccursAt(u + pat, pat, i)
    ensures Replace(u + pat, pat, rep) == u + rep
    decreases |u|
  {
    var s := u + pat;
    if u == [] {
      assert s == pat && s[..|pat|] == pat && s[|pat|..] == [];
    } else {
      assert !OccursAt(s, pat, 0);
      assert s[1..] == u[1..] + pat;
      forall i | 0 <= i < |u[1..]|
        ensures !OccursAt(u[1..] + pat, pat, i)
      {
        assert !OccursAt(s, pat, i + 1);
        assert (u[1..] + pat)[i..i + |pat|] == s[i + 1..i + 1 + |pat|];
      }
      ReplaceTrailing(u[1..], pat, rep);
      assert u == [u[0]] + u[1..];
    }
  }

  /** A leading `pat` that does not occur again is replaced and nothing else is. */
  lemma ReplaceLeading(pat: string, rest: string, rep: string)
    requires pat != []
    requires forall i :: !OccursAt(rest, pat, i)
    ensures Replace(pat + rest, pat, rep) == rep + rest
  {
    assert (pat + rest)[..|pat|] == pat;
    assert (pat + rest)[|pat|..] == rest;
    ReplaceAbsent(rest, pat, rep);
  }
}
