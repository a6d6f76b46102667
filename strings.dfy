/** String helpers shared by the renderers: Python's `sep.join(parts)`,
    suffix stripping (used to read a rendered column back) and `str()` of an int. */
module Strings {
  import opened Wrappers

  /** `sep.join(parts)`. */
  function Join(parts: seq<string>, sep: string): string
  {
    if |parts| == 0 then ""
    else if |parts| == 1 then parts[0]
    else parts[0] + sep + Join(parts[1..], sep)
  }

  /** Joining two non-empty lists is joining each and gluing the halves with one separator. */
  lemma {:induction false} JoinAppend(a: seq<string>, b: seq<string>, sep: string)
    requires |a| > 0 && |b| > 0
    ensures Join(a + b, sep) == Join(a, sep) + sep + Join(b, sep)
  {
    if |a| == 1 {
      assert (a + b)[1..] == b;
    } else {
      assert (a + b)[1..] == a[1..] + b;
      JoinAppend(a[1..], b, sep);
    }
  }

  /** Appending a possibly empty list: one separator, and only when something follows. */
  lemma JoinAppendOptional(a: seq<string>, b: seq<string>, sep: string)
    requires |a| > 0
    ensures Join(a + b, sep) == Join(a, sep) + (if |b| > 0 then sep + Join(b, sep) else "")
  {
    if |b| > 0 {
      JoinAppend(a, b, sep);
    } else {
      assert a + b == a;
    }
  }

  lemma ConcatAssoc(a: string, b: string, c: string)
    ensures (a + b) + c == a + (b + c)
  {
  }

  /** Seven pieces glued left to right, regrouped as the parsers cut them. */
  lemma Regroup(a: string, b: string, c: string, d: string, e: string, f: string, g: string)
    ensures a + b + c + d + e + f + g == a + (b + (c + ((d + e) + (f + g))))
  {
    ConcatAssoc(a + b + c + d + e, f, g);
    ConcatAssoc(a + b + c, d, e);
    ConcatAssoc(a + b + c, d + e, f + g);
    ConcatAssoc(a + b, c, (d + e) + (f + g));
    ConcatAssoc(a, b, c + ((d + e) + (f + g)));
  }

  /** A common prefix can be cancelled. */
  lemma PrefixCancel(a: string, x: string, y: string)
    ensures a + x == a + y <==> x == y
  {
    if a + x == a + y {
      assert x == (a + x)[|a|..];
      assert y == (a + y)[|a|..];
    }
  }

  /** `s.split(sep)` for a one-character separator. */
  function Split(s: string, sep: char): (parts: seq<string>)
    ensures |parts| >= 1
  {
    if s == [] then [""]
    else if s[0] == sep then [""] + Split(s[1..], sep)
    else
      var rest := Split(s[1..], sep);
      [[s[0]] + rest[0]] + rest[1..]
  }

  /** Splitting at a joining separator splits each side. */
  lemma {:induction false} SplitAppend(a: string, b: string, sep: char)
    ensures Split(a + [sep] + b, sep) == Split(a, sep) + Split(b, sep)
  {
    if a == [] {
      assert a + [sep] + b == [sep] + b;
      assert ([sep] + b)[1..] == b;
    } else {
      assert (a + [sep] + b)[1..] == a[1..] + [sep] + b;
      SplitAppend(a[1..], b, sep);
    }
  }

  /** A string without the separator splits into itself alone. */
  lemma {:induction false} SplitWithout(s: string, sep: char)
    requires sep !in s
    ensures Split(s, sep) == [s]
  {
    if s != [] {
      SplitWithout(s[1..], sep);
      assert s == [s[0]] + s[1..];
    }
  }

  /** Joining parts that do not contain the separator and splitting again gives the parts back. */
  lemma {:induction false} SplitOfJoin(parts: seq<string>, sep: char)
    requires |parts| > 0
    requires forall i :: 0 <= i < |parts| ==> sep !in parts[i]
    ensures Split(Join(parts, [sep]), sep) == parts
  {
    if |parts| == 1 {
      SplitWithout(parts[0], sep);
    } else {
      SplitOfJoin(parts[1..], sep);
      SplitWithout(parts[0], sep);
      SplitAppend(parts[0], Join(parts[1..], [sep]), sep);
      assert parts == [parts[0]] + parts[1..];
    }
  }

  predicate EndsWith(s: string, suffix: string)
  {
    |suffix| <= |s| && s[|s| - |suffix|..] == suffix
  }

  lemma EndsWithAppend(a: string, b: string, suffix: string)
    requires EndsWith(b, suffix)
    ensures EndsWith(a + b, suffix)
  {
    assert (a + b)[|a + b| - |suffix|..] == b[|b| - |suffix|..];
  }

  lemma EndsWithSelf(a: string, b: string)
    ensures EndsWith(a + b, b)
  {
    assert (a + b)[|a + b| - |b|..] == b;
  }

  /** `s` without the leading `prefix`, when it starts with it. */
  function DropPrefix(s: string, prefix: string): (r: Option<string>)
    ensures r.Some? ==> prefix + r.value == s
  {
    if |prefix| <= |s| && s[..|prefix|] == prefix then Some(s[|prefix|..]) else None
  }

  lemma DropPrefixOf(prefix: string, rest: string)
    ensures DropPrefix(prefix + rest, prefix) == Some(rest)
  {
    assert (prefix + rest)[..|prefix|] == prefix;
    assert (prefix + rest)[|prefix|..] == rest;
  }

  /** `s` without the trailing `suffix`, when it ends with it. */
  function DropSuffix(s: string, suffix: string): (r: Option<string>)
    ensures r.Some? ==> r.value + suffix == s
  {
    if EndsWith(s, suffix) then Some(s[..|s| - |suffix|]) else None
  }

  lemma DropSuffixOf(rest: string, suffix: string)
    ensures DropSuffix(rest + suffix, suffix) == Some(rest)
  {
    EndsWithSelf(rest, suffix);
    assert (rest + suffix)[..|rest|] == rest;
  }

  /** The first position of `c` in `s`. */
  function FirstIndex(s: string, c: char): (r: Option<nat>)
    ensures r.None? <==> c !in s
    ensures r.Some? ==> r.value < |s| && s[r.value] == c && c !in s[..r.value]
  {
    if s == [] then None
    else if s[0] == c then Some(0)
    else
      match FirstIndex(s[1..], c)
      case None => None
      case Some(i) =>
        assert s[..i + 1] == [s[0]] + s[1..][..i];
        Some(i + 1)
  }

  /** The last position of `c` in `s`. */
  function LastIndex(s: string, c: char): (r: Option<nat>)
    ensures r.None? <==> c !in s
    ensures r.Some? ==> r.value < |s| && s[r.value] == c && c !in s[r.value + 1..]
  {
    if s == [] then None
    else if s[|s| - 1] == c then Some(|s| - 1)
    else
      var front := s[..|s| - 1];
      match LastIndex(front, c)
      case None => None
      case Some(i) =>
        assert s[i + 1..] == front[i + 1..] + [s[|s| - 1]];
        Some(i)
  }

  /** `s` cut just before the first `c`: the part before it and the part from it on. */
  function CutAtFirst(s: string, c: char): (r: Option<(string, string)>)
    ensures r.Some? ==> r.value.0 + r.value.1 == s
  {
    match FirstIndex(s, c)
    case None => None
    case Some(i) =>
      assert s[..i] + s[i..] == s;
      Some((s[..i], s[i..]))
  }

  /** Cutting `a + b` where `b` starts with the first `c` gives `a` and `b` back. */
  lemma CutAtFirstOf(a: string, b: string, c: char)
    requires c !in a && |b| > 0 && b[0] == c
    ensures CutAtFirst(a + b, c) == Some((a, b))
  {
    var s := a + b;
    assert s[|a|] == c;
    assert s[..|a|] == a && s[|a|..] == b;
    var i := FirstIndex(s, c).value;
    assert i <= |a| by {
      if i > |a| {
      }
    }
    assert i >= |a| by {
      if i < |a| {
      }
    }
  }

  /** `s` cut just after the last `c`: the part up to and including it, and the part after it. */
  function CutAfterLast(s: string, c: char): (r: Option<(string, string)>)
    ensures r.Some? ==> r.value.0 + r.value.1 == s
  {
    match LastIndex(s, c)
    case None => None
    case Some(i) =>
      assert s[..i + 1] + s[i + 1..] == s;
      Some((s[..i + 1], s[i + 1..]))
  }

  /** Cutting `a + b` where `a` ends with the last `c` gives `a` and `b` back. */
  lemma CutAfterLastOf(a: string, b: string, c: char)
    requires |a| > 0 && a[|a| - 1] == c && c !in b
    ensures CutAfterLast(a + b, c) == Some((a, b))
  {
    var s := a + b;
    assert s[|a| - 1] == c;
    assert s[..|a|] == a && s[|a|..] == b;
    var i := LastIndex(s, c).value;
    assert i >= |a| - 1 by {
      if i < |a| - 1 {
      }
    }
    assert i <= |a| - 1 by {
      if i > |a| - 1 {
      }
    }
  }

  /** Reads back `", ".join(parts)`: split at the commas and drop the space
      after each comma. */
  function SplitList(s: string): (parts: seq<string>)
    ensures |parts| > 0
  {
    var ps := Split(s, ',');
    [ps[0]] + seq(|ps| - 1, i requires 0 <= i < |ps| - 1 => DropSpace(ps[i + 1]))
  }

  function DropSpace(p: string): string
  {
    if |p| > 0 && p[0] == ' ' then p[1..] else p
  }

  /** Every part of a list but the first, with its separating space. */
  function Spaced(qs: seq<string>): (ps: seq<string>)
    ensures |ps| == |qs|
    ensures forall i :: 0 <= i < |qs| ==> ps[i] == " " + qs[i]
  {
    seq(|qs|, i requires 0 <= i < |qs| => " " + qs[i])
  }

  lemma {:induction false} JoinSpaced(qs: seq<string>)
    requires |qs| > 0
    ensures Join(Spaced(qs), ",") == " " + Join(qs, ", ")
  {
    if |qs| > 1 {
      JoinSpaced(qs[1..]);
      assert Spaced(qs)[1..] == Spaced(qs[1..]);
    }
  }

  /** `", ".join(parts)` is the comma join of the parts with their spaces. */
  lemma JoinListSpaced(parts: seq<string>)
    requires |parts| > 0
    ensures Join(parts, ", ") == Join([parts[0]] + Spaced(parts[1..]), ",")
  {
    var ps := [parts[0]] + Spaced(parts[1..]);
    if |parts| > 1 {
      var rest := Join(parts[1..], ", ");
      JoinSpaced(parts[1..]);
      assert ps[1..] == Spaced(parts[1..]);
      assert Join(ps, ",") == parts[0] + "," + (" " + rest);
      assert Join(parts, ", ") == parts[0] + ", " + rest;
      assert ", " == "," + " ";
      ConcatAssoc(parts[0] + ",", " ", rest);
      ConcatAssoc(parts[0], ",", " ");
    } else {
      assert |Spaced(parts[1..])| == 0;
      assert ps == [parts[0]];
    }
  }

  /** Dropping the separating spaces again gives the list back. */
  lemma DropSpaces(parts: seq<string>)
    requires |parts| > 0
    ensures SplitList(Join([parts[0]] + Spaced(parts[1..]), ",")) == parts
    requires forall i :: 0 <= i < |parts| ==> ',' !in parts[i]
  {
    var ps := [parts[0]] + Spaced(parts[1..]);
    forall i | 0 <= i < |ps| ensures ',' !in ps[i] {
      if i > 0 {
        assert ps[i] == " " + parts[i];
      }
    }
    SplitOfJoin(ps, ',');
    var r := SplitList(Join(ps, ","));
    forall i | 0 <= i < |parts| ensures r[i] == parts[i] {
      if i > 0 {
        assert DropSpace(ps[i]) == parts[i];
      }
    }
  }

  /** A comma-free list of names reads back from its `", "` join. */
  lemma SplitListOfJoin(parts: seq<string>)
    requires |parts| > 0
    requires forall i :: 0 <= i < |parts| ==> ',' !in parts[i]
    ensures SplitList(Join(parts, ", ")) == parts
  {
    JoinListSpaced(parts);
    DropSpaces(parts);
  }

  /** Removes `suffix` from the end of `s` when it is there, and says whether it was. */
  function StripSuffix(s: string, suffix: string): (r: (bool, string))
    ensures r.0 == EndsWith(s, suffix)
    ensures if r.0 then r.1 + suffix == s else r.1 == s
  {
    if EndsWith(s, suffix) then (true, s[..|s| - |suffix|]) else (false, s)
  }

  function DigitChar(d: nat): char
    requires d < 10
  {
    "0123456789"[d]
  }

  /** Python's `str(n)` for a natural number: its decimal digits, no leading zero. */
  function NatToString(n: nat): (s: string)
    ensures |s| > 0
    ensures forall i :: 0 <= i < |s| ==> '0' <= s[i] <= '9'
    decreases n
  {
    if n < 10 then [DigitChar(n)] else NatToString(n / 10) + [DigitChar(n % 10)]
  }

  /** Python's `str(i)` for an int. */
  function IntToString(i: int): string
  {
    if i < 0 then "-" + NatToString(-i) else NatToString(i)
  }
}
