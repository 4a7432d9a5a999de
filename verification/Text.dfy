/** Decimal printing, and texts made of separated parts. */
module Text {
  import opened Sequences

  function Digit(d: nat): char
    requires d < 10
  {
    ('0' as int + d) as char
  }

  /** What operator<< writes for an unsigned number. */
  function Dec(n: nat): (s: string)
    ensures s != [] && forall i :: 0 <= i < |s| ==> '0' <= s[i] <= '9'
    ensures s[0] == '0' ==> n == 0
  {
    if n < 10 then [Digit(n)] else Dec(n / 10) + [Digit(n % 10)]
  }

  function DecInt(i: int): (s: string)
    ensures s != [] && forall k :: 0 <= k < |s| ==> '0' <= s[k] <= '9' || s[k] == '-'
  {
    if i < 0 then "-" + Dec(-i) else Dec(i)
  }

  /** The number a string of digits stands for. */
  function Value(s: string): nat
    requires forall i :: 0 <= i < |s| ==> '0' <= s[i] <= '9'
  {
    if s == [] then 0 else Value(s[..|s| - 1]) * 10 + (s[|s| - 1] as int - '0' as int)
  }

  lemma {:induction false} ValueOfDec(n: nat)
    ensures Value(Dec(n)) == n
  {
    if n < 10 {
      assert Dec(n)[..0] == [];
    } else {
      ValueOfDec(n / 10);
      assert Dec(n)[..|Dec(n)| - 1] == Dec(n / 10);
    }
  }

  lemma DecInjective(m: nat, n: nat)
    requires Dec(m) == Dec(n)
    ensures m == n
  {
    ValueOfDec(m);
    ValueOfDec(n);
  }

  lemma DecIntInjective(i: int, j: int)
    requires DecInt(i) == DecInt(j)
    ensures i == j
  {
    assert i < 0 ==> DecInt(i)[1..] == Dec(-i);
    assert j < 0 ==> DecInt(j)[1..] == Dec(-j);
    if i < 0 && j < 0 { DecInjective(-i, -j); }
    if i >= 0 && j >= 0 { DecInjective(i, j); }
  }

  // ---------------------------------------------------------------- separators

  function Join(parts: seq<string>, sep: char): string {
    if parts == [] then ""
    else if |parts| == 1 then parts[0]
    else parts[0] + [sep] + Join(parts[1..], sep)
  }

  predicate Parts(parts: seq<string>, sep: char) {
    forall i :: 0 <= i < |parts| ==> parts[i] != "" && sep !in parts[i]
  }

  /** A text splits at the first separator in one way only. */
  lemma SplitFirst(a: string, b: string, a': string, b': string, c: char)
    requires a + [c] + b == a' + [c] + b' && c !in a && c !in a'
    ensures a == a' && b == b'
  {
    var s := a + [c] + b;
    FirstIs(a, b, c, s);
    FirstIs(a', b', c, s);
    assert |a| == |a'|;
    assert a == s[..|a|] && a' == s[..|a'|] && b == s[|a| + 1..] && b' == s[|a'| + 1..];
  }

  lemma FirstIs(a: string, b: string, c: char, s: string)
    requires s == a + [c] + b && c !in a
    ensures s[|a|] == c && forall i :: 0 <= i < |a| ==> s[i] != c
  {
    forall i | 0 <= i < |a| ensures s[i] != c {
      assert s[i] == a[i];
    }
  }

  lemma LastIs(a: string, b: string, c: char, s: string)
    requires s == a + [c] + b && c !in b
    ensures s[|a|] == c && forall i :: |a| < i < |s| ==> s[i] != c
  {
    forall i | |a| < i < |s| ensures s[i] != c {
      assert s[i] == b[i - |a| - 1];
    }
  }

  lemma SplitLast(a: string, b: string, a': string, b': string, c: char)
    requires a + [c] + b == a' + [c] + b' && c !in b && c !in b'
    ensures a == a' && b == b'
  {
    var s := a + [c] + b;
    LastIs(a, b, c, s);
    LastIs(a', b', c, s);
    assert |a| == |a'|;
    assert a == s[..|a|] && a' == s[..|a'|] && b == s[|a| + 1..] && b' == s[|a'| + 1..];
  }

  lemma {:induction false} JoinInjective(ps: seq<string>, qs: seq<string>, sep: char)
    requires Parts(ps, sep) && Parts(qs, sep) && Join(ps, sep) == Join(qs, sep)
    ensures ps == qs
  {
    if |ps| >= 2 { FirstIs(ps[0], Join(ps[1..], sep), sep, Join(ps, sep)); }
    if |qs| >= 2 { FirstIs(qs[0], Join(qs[1..], sep), sep, Join(qs, sep)); }
    if |ps| >= 2 && |qs| >= 2 {
      SplitFirst(ps[0], Join(ps[1..], sep), qs[0], Join(qs[1..], sep), sep);
      JoinInjective(ps[1..], qs[1..], sep);
      assert ps == [ps[0]] + ps[1..] && qs == [qs[0]] + qs[1..];
    }
  }

  lemma {:induction false} JoinLacks(parts: seq<string>, sep: char, c: char)
    requires c != sep && forall i :: 0 <= i < |parts| ==> c !in parts[i]
    ensures c !in Join(parts, sep)
  {
    if |parts| >= 2 {
      JoinLacks(parts[1..], sep, c);
    }
  }

  /** One more part at the end, as the printing loops add it. */
  lemma {:induction false} JoinSnoc(parts: seq<string>, part: string, sep: char)
    ensures Join(parts + [part], sep) == if parts == [] then part else Join(parts, sep) + [sep] + part
  {
    if |parts| == 1 {
      assert (parts + [part])[1..] == [part];
    } else if |parts| >= 2 {
      assert (parts + [part])[1..] == parts[1..] + [part];
      JoinSnoc(parts[1..], part, sep);
    } else {
      assert parts + [part] == [part];
    }
  }

  /** The same behind what a line holds already. */
  lemma JoinStep(line: string, parts: seq<string>, part: string, sep: char)
    ensures (if parts != [] then line + Join(parts, sep) + [sep] else line + Join(parts, sep)) + part
         == line + Join(parts + [part], sep)
  {
    JoinSnoc(parts, part, sep);
    if parts == [] {
      assert line + "" == line;
    } else {
      Associate(line, Join(parts, sep), [sep]);
      Associate(line, Join(parts, sep) + [sep], part);
    }
  }

  /** What precedes the last part. */
  function Before(parts: seq<string>, sep: char): string
    requires parts != []
  {
    if |parts| == 1 then "" else Join(parts[..|parts| - 1], sep) + [sep]
  }

  lemma JoinEndsInLast(parts: seq<string>, sep: char)
    requires parts != []
    ensures Join(parts, sep) == Before(parts, sep) + parts[|parts| - 1]
  {
    var n := |parts| - 1;
    assert parts == parts[..n] + [parts[n]];
    JoinSnoc(parts[..n], parts[n], sep);
  }

  /** find_last_of(): -1 stands for npos. */
  function FindLast(s: string, c: char): (i: int)
    ensures -1 <= i < |s|
    ensures i >= 0 ==> s[i] == c
    ensures forall k :: i < k < |s| ==> s[k] != c
  {
    if s == [] then -1
    else if s[|s| - 1] == c then |s| - 1
    else FindLast(s[..|s| - 1], c)
  }

  lemma FindLastIs(a: string, b: string, c: char)
    requires c !in b
    ensures FindLast(a + [c] + b, c) == |a|
  {
    LastIs(a, b, c, a + [c] + b);
  }

  /** The last `c` of a text lies before a tail that has none. */
  lemma FindLastBefore(a: string, b: string, c: char)
    requires c in a && c !in b
    ensures 0 <= FindLast(a + b, c) < |a|
  {
    var s := a + b;
    var j :| 0 <= j < |a| && a[j] == c;
    assert s[j] == c;
    forall i | |a| <= i < |s| ensures s[i] != c {
      assert s[i] == b[i - |a|];
    }
  }
}
