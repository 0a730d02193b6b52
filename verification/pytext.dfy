/** The Python `str` operations the resolver uses, for a one-character
    separator (`split`, `join`) and a set of characters (`lstrip`, `rstrip`). */
module PyText {

  /** Number of occurrences of `c` in `s`. */
  function Count(s: string, c: char): nat
  {
    if s == [] then 0 else (if s[0] == c then 1 else 0) + Count(s[1..], c)
  }

  /** `sep.join(parts)`. */
  function Join(parts: seq<string>, sep: char): string
  {
    if parts == [] then []
    else if |parts| == 1 then parts[0]
    else parts[0] + [sep] + Join(parts[1..], sep)
  }

  /** `s.split(sep)`: the separator-free runs of `s` between separators, empty
      runs included, so that there is always one more field than separators. */
  function Split(s: string, sep: char): (fields: seq<string>)
    ensures |fields| == Count(s, sep) + 1
    ensures forall i | 0 <= i < |fields| :: sep !in fields[i]
  {
    if s == [] then [[]]
    else
      var rest := Split(s[1..], sep);
      assert s == [s[0]] + s[1..];
      if s[0] == sep then [[]] + rest
      else
        var fields := [[s[0]] + rest[0]] + rest[1..];
        assert fields[1..] == rest[1..];
        fields
  }

  /** `join` undoes `split`. */
  lemma {:induction false} JoinSplit(s: string, sep: char)
    ensures Join(Split(s, sep), sep) == s
  {
    if s != [] {
      JoinSplit(s[1..], sep);
      var rest := Split(s[1..], sep);
      assert s == [s[0]] + s[1..];
      if s[0] != sep {
        var fields := [[s[0]] + rest[0]] + rest[1..];
        assert fields[1..] == rest[1..];
      }
    }
  }

  /** Splitting a separator-free prefix onto the front of a string extends the
      first field and leaves the others alone. */
  lemma {:induction false} SplitPrefix(x: string, t: string, sep: char)
    requires sep !in x
    ensures Split(x + t, sep) == [x + Split(t, sep)[0]] + Split(t, sep)[1..]
  {
    if x != [] {
      var st := Split(t, sep);
      assert (x + t)[1..] == x[1..] + t;
      SplitPrefix(x[1..], t, sep);
      var rest := Split(x[1..] + t, sep);
      assert rest == [x[1..] + st[0]] + st[1..];
      assert rest[0] == x[1..] + st[0];
      assert rest[1..] == st[1..];
      assert Split(x + t, sep) == [[x[0]] + rest[0]] + rest[1..];
      assert [x[0]] + (x[1..] + st[0]) == x + st[0];
    } else {
      var st := Split(t, sep);
      assert x + t == t;
      assert x + st[0] == st[0];
      assert [st[0]] + st[1..] == st;
    }
  }

  /** `split` undoes `join` when no part holds the separator. */
  lemma {:induction false} SplitJoin(parts: seq<string>, sep: char)
    requires |parts| >= 1
    requires forall i | 0 <= i < |parts| :: sep !in parts[i]
    ensures Split(Join(parts, sep), sep) == parts
  {
    if |parts| == 1 {
      SplitPrefix(parts[0], [], sep);
      assert parts[0] + [] == parts[0];
      assert Split([], sep) == [[]];
    } else {
      var rest := Join(parts[1..], sep);
      SplitJoin(parts[1..], sep);
      assert Join(parts, sep) == parts[0] + ([sep] + rest);
      SplitPrefix(parts[0], [sep] + rest, sep);
      assert ([sep] + rest)[1..] == rest;
      var sr := Split([sep] + rest, sep);
      assert sr == [[]] + parts[1..];
      assert sr[0] == [] && sr[1..] == parts[1..];
      assert parts[0] + sr[0] == parts[0];
      assert parts == [parts[0]] + parts[1..];
    }
  }

  /** The field after the first separator is the run up to the next separator
      or the end of the string. */
  lemma SecondField(a: string, f: string, rest: string, sep: char)
    requires sep !in a && sep !in f
    requires rest == [] || rest[0] == sep
    ensures |Split(a + [sep] + f + rest, sep)| >= 2
    ensures Split(a + [sep] + f + rest, sep)[1] == f
  {
    var u := [sep] + (f + rest);
    AfterSep(f, rest, sep);
    SplitPrefix(a, u, sep);
    Regroup4(a, [sep], f, rest);
  }

  /** Kept apart so that regrouping is proved without the split facts in
      scope, which keeps SecondField stable across solver seeds. */
  lemma Regroup4(a: string, b: string, c: string, d: string)
    ensures a + b + c + d == a + (b + (c + d))
  {
  }

  /** Right after a separator, the second field runs to the next separator
      or the end. */
  lemma AfterSep(f: string, rest: string, sep: char)
    requires sep !in f
    requires rest == [] || rest[0] == sep
    ensures |Split([sep] + (f + rest), sep)| >= 2 && Split([sep] + (f + rest), sep)[1] == f
  {
    var v := f + rest;
    assert Split(v, sep)[0] == f by {
      SplitPrefix(f, rest, sep);
      RestStartsEmpty(rest, sep);
    }
    assert ([sep] + v)[1..] == v;
  }

  /** Text that is empty or starts with the separator has an empty first
      field; kept apart for proof stability across solver seeds. */
  lemma RestStartsEmpty(rest: string, sep: char)
    requires rest == [] || rest[0] == sep
    ensures Split(rest, sep)[0] == []
  {
  }

  /** The text before the first separator is `s.split(sep)[0]`. */
  lemma FirstField(x: string, tail: string, sep: char)
    requires sep !in x
    ensures Split(x + [sep] + tail, sep)[0] == x
  {
    SplitPrefix(x, [sep] + tail, sep);
    assert x + [sep] + tail == x + ([sep] + tail);
    assert [sep] + tail == [sep] + tail[..];
  }

  /** `s.lstrip(chars)`: drop every leading character that is in the SET
      `chars` (not a prefix string). */
  function LStrip(s: string, chars: set<char>): (r: string)
    ensures |r| <= |s| && r == s[|s| - |r|..]
    ensures forall i | 0 <= i < |s| - |r| :: s[i] in chars
    ensures r == [] || r[0] !in chars
  {
    if s != [] && s[0] in chars then LStrip(s[1..], chars) else s
  }

  /** `s.rstrip(chars)`: drop every trailing character that is in `chars`. */
  function RStrip(s: string, chars: set<char>): (r: string)
    ensures |r| <= |s| && r == s[..|r|]
    ensures forall i | |r| <= i < |s| :: s[i] in chars
    ensures r == [] || r[|r| - 1] !in chars
  {
    if s != [] && s[|s| - 1] in chars then RStrip(s[..|s| - 1], chars) else s
  }

  /** Left stripping never passes a character outside the set. */
  lemma {:induction false} LStripStopsAt(x: string, y: string, chars: set<char>)
    requires y != [] && y[0] !in chars
    ensures LStrip(x + y, chars) == LStrip(x, chars) + y
  {
    if x != [] {
      assert (x + y)[1..] == x[1..] + y;
      if x[0] in chars {
        LStripStopsAt(x[1..], y, chars);
      }
    }
  }

  /** Right stripping never passes a character outside the set. */
  lemma {:induction false} RStripStopsAt(x: string, y: string, chars: set<char>)
    requires x != [] && x[|x| - 1] !in chars
    ensures RStrip(x + y, chars) == x + RStrip(y, chars)
  {
    if y != [] {
      assert (x + y)[..|x + y| - 1] == x + y[..|y| - 1];
      if y[|y| - 1] in chars {
        RStripStopsAt(x, y[..|y| - 1], chars);
      }
    }
  }

  /** A character occurs in `s` exactly when its count is positive. */
  lemma {:induction false} CountPositive(s: string, c: char)
    ensures Count(s, c) > 0 <==> c in s
  {
    if s != [] {
      CountPositive(s[1..], c);
      assert s == [s[0]] + s[1..];
    }
  }

  /** The first two parts of a join and what follows them. */
  lemma JoinFirstTwo(parts: seq<string>, sep: char)
    requires |parts| >= 2
    ensures Join(parts, sep) ==
            parts[0] + [sep] + parts[1] + (if |parts| == 2 then [] else [sep] + Join(parts[2..], sep))
  {
    assert parts[1..][1..] == parts[2..];
  }

  /** `s.find(c)`: the index of the first `c` in `s`, or -1. */
  function Find(s: string, c: char): (k: int)
    ensures -1 <= k < |s|
    ensures k >= 0 ==> s[k] == c && c !in s[..k]
    ensures k < 0 <==> c !in s
  {
    if s == [] then -1
    else if s[0] == c then 0
    else
      var k := Find(s[1..], c);
      assert s == [s[0]] + s[1..];
      if k < 0 then -1
      else
        assert s[..k + 1] == [s[0]] + s[1..][..k];
        k + 1
  }

  /** The first `c` after a `c`-free prefix is the one that ends it. */
  lemma {:induction false} FindAfter(a: string, b: string, c: char)
    requires c !in a
    ensures Find(a + [c] + b, c) == |a|
  {
    if a != [] {
      assert (a + [c] + b)[1..] == a[1..] + [c] + b;
      FindAfter(a[1..], b, c);
    }
  }

  /** The second field of a split lies between the first separator and the
      next one (or the end). */
  lemma SecondFieldShape(s: string, sep: char)
    requires |Split(s, sep)| >= 2
    ensures var f, k := Split(s, sep)[1], Find(s, sep);
            0 <= k && k + 1 + |f| <= |s| && s[k + 1..k + 1 + |f|] == f &&
            (k + 1 + |f| == |s| || s[k + 1 + |f|] == sep)
  {
    var fields := Split(s, sep);
    var first, f := fields[0], fields[1];
    var rest := if |fields| == 2 then [] else [sep] + Join(fields[2..], sep);
    assert s == first + [sep] + f + rest by {
      JoinSplit(s, sep);
      JoinFirstTwo(fields, sep);
    }
    assert sep !in first && sep !in f;
    FieldAfterFirst(first, f, rest, sep);
  }

  /** In `first + [sep] + f + rest`, with `first` separator-free, the first
      separator is at `|first|` and `f` follows it. */
  lemma FieldAfterFirst(first: string, f: string, rest: string, sep: char)
    requires sep !in first
    requires rest == [] || rest[0] == sep
    ensures var s, k := first + [sep] + f + rest, Find(first + [sep] + f + rest, sep);
            k == |first| && k + 1 + |f| <= |s| && s[k + 1..k + 1 + |f|] == f &&
            (k + 1 + |f| == |s| || s[k + 1 + |f|] == sep)
  {
    var s := first + [sep] + f + rest;
    assert s == first + [sep] + (f + rest);
    FindAfter(first, f + rest, sep);
    assert s[|first| + 1..] == f + rest;
  }
}
