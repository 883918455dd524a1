/**
 * The handful of PHP string built-ins the DAV core relies on, over `string`
 * (a PHP string is a byte string; here each character stands for one byte).
 */
module PhpString {
  import opened Wrappers

  /** PHP's loose truthiness of a string: only "" and "0" are falsy. */
  predicate Truthy(s: string) {
    s != "" && s != "0"
  }

  const Slash: set<char> := {'/'}

  /** The characters PHP's `trim` strips when no character list is given. */
  const Whitespace: set<char> := {' ', '\t', '\n', '\r', '\0', '\U{000B}'}

  /** `ltrim($s, $cs)`: drops the longest prefix made of characters in `cs`. */
  function TrimLeft(s: string, cs: set<char>): (r: string)
    ensures |r| <= |s| && r == s[|s| - |r|..]
    ensures r == [] || r[0] !in cs
    ensures forall i :: 0 <= i < |s| - |r| ==> s[i] in cs
  {
    if |s| > 0 && s[0] in cs then TrimLeft(s[1..], cs) else s
  }

  /** `rtrim($s, $cs)`: drops the longest suffix made of characters in `cs`. */
  function TrimRight(s: string, cs: set<char>): (r: string)
    ensures |r| <= |s| && r == s[..|r|]
    ensures r == [] || r[|r| - 1] !in cs
    ensures forall i :: |r| <= i < |s| ==> s[i] in cs
  {
    if |s| > 0 && s[|s| - 1] in cs then TrimRight(s[..|s| - 1], cs) else s
  }

  /** `trim($s, $cs)`. */
  function Trim(s: string, cs: set<char>): (r: string)
    ensures r == [] || (r[0] !in cs && r[|r| - 1] !in cs)
  {
    var l := TrimLeft(s, cs);
    var r := TrimRight(l, cs);
    assert r != [] ==> r[0] == l[0];
    r
  }

  /** `explode($d, $s)` for a one-character delimiter. */
  function Explode(d: char, s: string): (parts: seq<string>)
    ensures |parts| >= 1
    ensures forall i :: 0 <= i < |parts| ==> d !in parts[i]
  {
    if s == [] then [""]
    else if s[0] == d then [""] + Explode(d, s[1..])
    else
      var rest := Explode(d, s[1..]);
      [[s[0]] + rest[0]] + rest[1..]
  }

  /** `implode($d, $parts)`. */
  function Join(d: char, parts: seq<string>): string {
    if parts == [] then ""
    else if |parts| == 1 then parts[0]
    else parts[0] + [d] + Join(d, parts[1..])
  }

  /** Splitting at `d` and joining again gives back the string. */
  lemma {:induction false} JoinExplode(d: char, s: string)
    ensures Join(d, Explode(d, s)) == s
  {
    if s == [] {
    } else if s[0] == d {
      JoinExplode(d, s[1..]);
      var rest := Explode(d, s[1..]);
      assert Explode(d, s) == [""] + rest;
      assert Join(d, [""] + rest) == "" + [d] + Join(d, rest);
    } else {
      JoinExplode(d, s[1..]);
      var rest := Explode(d, s[1..]);
      if |rest| == 1 {
        assert Explode(d, s) == [[s[0]] + rest[0]];
        assert s == [s[0]] + s[1..];
      } else {
        assert (([[s[0]] + rest[0]] + rest[1..])[1..]) == rest[1..];
        assert Join(d, rest) == rest[0] + [d] + Join(d, rest[1..]);
        assert s == [s[0]] + s[1..];
      }
    }
  }

  /** Without the delimiter, `explode` yields the whole string as its only part. */
  lemma {:induction false} ExplodeNoDelimiter(d: char, s: string)
    requires d !in s
    ensures Explode(d, s) == [s]
  {
    if s != [] {
      ExplodeNoDelimiter(d, s[1..]);
      assert s[0] in s;
      assert [s[0]] + s[1..] == s;
    }
  }

  /** Joining parts that are free of `d` and splitting again gives the parts back. */
  lemma {:induction false} ExplodeJoin(d: char, parts: seq<string>)
    requires |parts| >= 1
    requires forall i :: 0 <= i < |parts| ==> d !in parts[i]
    ensures Explode(d, Join(d, parts)) == parts
  {
    if |parts| == 1 {
      ExplodeNoDelimiter(d, parts[0]);
      assert parts == [parts[0]];
    } else {
      ExplodeJoin(d, parts[1..]);
      ExplodePrefix(d, parts[0], Join(d, parts[1..]));
      assert Join(d, parts) == parts[0] + [d] + Join(d, parts[1..]);
      assert [parts[0]] + parts[1..] == parts;
    }
  }

  /** Splitting `p + d + t` where `p` is free of `d`. */
  lemma {:induction false} ExplodePrefix(d: char, p: string, t: string)
    requires d !in p
    ensures Explode(d, p + [d] + t) == [p] + Explode(d, t)
  {
    if p == [] {
      assert p + [d] + t == [d] + t;
      assert ([d] + t)[1..] == t;
    } else {
      assert (p + [d] + t)[1..] == p[1..] + [d] + t;
      ExplodePrefix(d, p[1..], t);
      assert [p[0]] + p[1..] == p;
    }
  }

  /** Splitting at a delimiter between two strings splits each of them. */
  lemma {:induction false} ExplodeAppend(d: char, p: string, t: string)
    ensures Explode(d, p + [d] + t) == Explode(d, p) + Explode(d, t)
  {
    if p == [] {
      assert p + [d] + t == [d] + t;
      ExplodeStep(d, [d] + t);
      assert ([d] + t)[1..] == t;
    } else {
      assert (p + [d] + t)[1..] == p[1..] + [d] + t;
      ExplodeAppend(d, p[1..], t);
      ExplodeAppendCons(d, p, t);
    }
  }

  /** The step of ExplodeAppend for a non-empty first part, from the one for its tail. */
  lemma ExplodeAppendCons(d: char, p: string, t: string)
    requires p != []
    requires Explode(d, (p + [d] + t)[1..]) == Explode(d, p[1..]) + Explode(d, t)
    ensures Explode(d, p + [d] + t) == Explode(d, p) + Explode(d, t)
  {
    var s := p + [d] + t;
    var r, a, b := Explode(d, s[1..]), Explode(d, p[1..]), Explode(d, t);
    assert s[0] == p[0];
    ExplodeStep(d, s);
    ExplodeStep(d, p);
    if p[0] == d {
      calc {
        Explode(d, s);
        [""] + r;
        [""] + (a + b);
        { SeqAssoc([""], a, b); }
        ([""] + a) + b;
      }
    } else {
      calc {
        Explode(d, s);
        [[p[0]] + r[0]] + r[1..];
        { GlueHead([p[0]], a, b); }
        ([[p[0]] + a[0]] + a[1..]) + b;
      }
    }
  }

  lemma SeqAssoc(x: seq<string>, y: seq<string>, z: seq<string>)
    ensures x + (y + z) == (x + y) + z
  {
  }

  /** One step of `explode`: a delimiter opens a new part, another character joins the first one. */
  lemma ExplodeStep(d: char, s: string)
    requires s != []
    ensures var rest := Explode(d, s[1..]);
      Explode(d, s) == if s[0] == d then [""] + rest else [[s[0]] + rest[0]] + rest[1..]
  {
  }

  /** Gluing a prefix to the first part commutes with appending further parts. */
  lemma GlueHead(c: string, a: seq<string>, b: seq<string>)
    requires |a| >= 1
    ensures [c + (a + b)[0]] + (a + b)[1..] == ([c + a[0]] + a[1..]) + b
  {
    assert (a + b)[0] == a[0];
    assert (a + b)[1..] == a[1..] + b;
  }


  /** The text after the last `/`, i.e. the last part of `explode('/', $s)`. */
  function LastSegment(s: string): (r: string)
    ensures '/' !in r
  {
    var parts := Explode('/', s);
    parts[|parts| - 1]
  }

  /**
   * `basename($s)`: trailing slashes are ignored and the text after the last
   * remaining `/` is returned (locale and multibyte handling are not modelled).
   */
  function Basename(s: string): (r: string)
    ensures '/' in s || r == s
    ensures '/' !in r
  {
    var t := TrimRight(s, Slash);
    if '/' !in s then
      assert t == s;
      ExplodeNoDelimiter('/', s);
      s
    else LastSegment(t)
  }

  /**
   * `URLUtil::splitPath`: the parent part before the last `/` and the name
   * after it; a path without `/` has the empty parent.
   */
  function SplitPath(s: string): (r: (string, string))
    ensures '/' !in r.1
  {
    var parts := Explode('/', s);
    (Join('/', parts[..|parts| - 1]), parts[|parts| - 1])
  }

  /** A path with a `/` is its parent, a `/` and its name. */
  lemma SplitPathJoins(s: string)
    requires '/' in s
    ensures SplitPath(s).0 + "/" + SplitPath(s).1 == s
  {
    var parts := Explode('/', s);
    JoinExplode('/', s);
    ExplodeSplits('/', s);
    JoinSnoc('/', parts[..|parts| - 1], parts[|parts| - 1]);
    assert parts[..|parts| - 1] + [parts[|parts| - 1]] == parts;
  }

  /** A string holding the delimiter splits into at least two parts. */
  lemma {:induction false} ExplodeSplits(d: char, s: string)
    requires d in s
    ensures |Explode(d, s)| >= 2
  {
    if s[0] != d {
      ExplodeSplits(d, s[1..]);
    }
  }

  /** Joining with one more part at the end. */
  lemma {:induction false} JoinSnoc(d: char, parts: seq<string>, last: string)
    requires |parts| >= 1
    ensures Join(d, parts + [last]) == Join(d, parts) + [d] + last
  {
    if |parts| == 1 {
      assert parts + [last] == [parts[0], last];
    } else {
      assert (parts + [last])[1..] == parts[1..] + [last];
      JoinSnoc(d, parts[1..], last);
    }
  }

  /** `needle` occurs in `hay` starting at index `j`. */
  predicate OccursAt(hay: string, needle: string, j: int) {
    0 <= j && j + |needle| <= |hay| && hay[j..j + |needle|] == needle
  }

  /** `strpos($hay, $needle, $from)`: the first occurrence at or after `from`. */
  function StrPosFrom(hay: string, needle: string, from: nat): (r: Option<nat>)
    ensures r.Some? ==> from <= r.value && OccursAt(hay, needle, r.value)
    ensures r.Some? ==> forall j :: from <= j < r.value ==> !OccursAt(hay, needle, j)
    ensures r.None? ==> forall j :: from <= j ==> !OccursAt(hay, needle, j)
    decreases |hay| - from
  {
    if from + |needle| > |hay| then None
    else if hay[from..from + |needle|] == needle then Some(from)
    else StrPosFrom(hay, needle, from + 1)
  }

  /** `strpos($hay, $needle)`; `None` stands for PHP's `false`. */
  function StrPos(hay: string, needle: string): (r: Option<nat>)
    ensures r.Some? ==> OccursAt(hay, needle, r.value)
    ensures r.Some? ==> forall j :: 0 <= j < r.value ==> !OccursAt(hay, needle, j)
    ensures r.None? ==> forall j :: !OccursAt(hay, needle, j)
  {
    StrPosFrom(hay, needle, 0)
  }

  /** Searching for one character finds its first occurrence, and nothing when it is absent. */
  lemma StrPosChar(hay: string, c: char)
    ensures StrPos(hay, [c]).Some? <==> c in hay
    ensures StrPos(hay, [c]).Some? ==> hay[StrPos(hay, [c]).value] == c
    ensures StrPos(hay, [c]).Some? ==> forall k :: 0 <= k < StrPos(hay, [c]).value ==> hay[k] != c
  {
    forall j | 0 <= j < |hay| ensures OccursAt(hay, [c], j) <==> hay[j] == c {
      assert hay[j..j + 1] == [hay[j]];
    }
  }

  /** `substr($s, $start)` for a non-negative start; past the end is "". */
  function Substr(s: string, start: nat): (r: string)
    ensures start <= |s| ==> r == s[start..]
    ensures start >= |s| ==> r == ""
  {
    if start >= |s| then "" else s[start..]
  }

  /** `str_replace($needle, $repl, $s)`: left-to-right, non-overlapping. */
  function StrReplace(s: string, needle: string, repl: string): string
    decreases |s|
  {
    if |needle| == 0 || |s| < |needle| then s
    else if s[..|needle|] == needle then repl + StrReplace(s[|needle|..], needle, repl)
    else [s[0]] + StrReplace(s[1..], needle, repl)
  }

  /** A string in which `needle` does not occur is left as it is. */
  lemma {:induction false} StrReplaceAbsent(s: string, needle: string, repl: string)
    requires forall j :: !OccursAt(s, needle, j)
    ensures StrReplace(s, needle, repl) == s
  {
    if |needle| == 0 || |s| < |needle| {
    } else {
      assert !OccursAt(s, needle, 0);
      forall j ensures !OccursAt(s[1..], needle, j) {
        assert !OccursAt(s, needle, j + 1);
        if 0 <= j && j + |needle| <= |s| - 1 {
          assert s[1..][j..j + |needle|] == s[j + 1..j + 1 + |needle|];
        }
      }
      StrReplaceAbsent(s[1..], needle, repl);
    }
  }

  /** Deleting occurrences never makes a string longer. */
  lemma {:induction false} StrReplaceDeleteShrinks(s: string, needle: string)
    ensures |StrReplace(s, needle, "")| <= |s|
    decreases |s|
  {
    if |needle| == 0 || |s| < |needle| {
    } else if s[..|needle|] == needle {
      StrReplaceDeleteShrinks(s[|needle|..], needle);
    } else {
      StrReplaceDeleteShrinks(s[1..], needle);
    }
  }

  /** ASCII lower-casing of one character (`strtolower` in the C locale). */
  function LowerChar(c: char): (r: char)
    ensures 'A' <= c <= 'Z' ==> r as int == c as int + 32
    ensures !('A' <= c <= 'Z') ==> r == c
  {
    if 'A' <= c <= 'Z' then (c as int + 32) as char else c
  }

  /** `strtolower($s)` in the C locale. */
  function ToLower(s: string): (r: string)
    ensures |r| == |s|
    ensures forall i :: 0 <= i < |s| ==> r[i] == LowerChar(s[i])
  {
    if s == [] then [] else [LowerChar(s[0])] + ToLower(s[1..])
  }
}
