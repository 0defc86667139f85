/** Splitting and joining text on one separator, as `strings.Split` does. */
module Text {
  function Split(s: string, c: char): (parts: seq<string>)
    ensures |parts| >= 1
  {
    if s == "" then [""] else
    var rest := Split(s[1..], c);
    if s[0] == c then [""] + rest else [[s[0]] + rest[0]] + rest[1..]
  }

  function Join(parts: seq<string>, c: char): string
    requires |parts| >= 1
  {
    if |parts| == 1 then parts[0] else parts[0] + [c] + Join(parts[1..], c)
  }

  lemma {:induction false} SplitAlone(a: string, c: char)
    requires c !in a
    ensures Split(a, c) == [a]
  {
    if a != "" {
      SplitAlone(a[1..], c);
      assert [a[0]] + a[1..] == a;
    }
  }

  lemma {:induction false} SplitFirst(a: string, b: string, c: char)
    requires c !in a
    ensures Split(a + [c] + b, c) == [a] + Split(b, c)
  {
    if a == "" {
      assert (a + [c] + b)[1..] == b;
    } else {
      SplitFirst(a[1..], b, c);
      assert (a + [c] + b)[1..] == a[1..] + [c] + b;
      assert [a[0]] + a[1..] == a;
    }
  }

  lemma PrependToParts(ch: char, parts: seq<string>, more: seq<string>)
    requires |parts| >= 1
    ensures [""] + (parts + more) == ([""] + parts) + more
    ensures [[ch] + (parts + more)[0]] + (parts + more)[1..] == ([[ch] + parts[0]] + parts[1..]) + more
  {
  }

  /** Text around a separator splits into the parts of both sides. */
  lemma {:induction false} SplitConcat(a: string, b: string, c: char)
    ensures Split(a + [c] + b, c) == Split(a, c) + Split(b, c)
  {
    if a == "" {
      assert (a + [c] + b)[1..] == b;
    } else {
      SplitConcat(a[1..], b, c);
      assert (a + [c] + b)[1..] == a[1..] + [c] + b;
      PrependToParts(a[0], Split(a[1..], c), Split(b, c));
    }
  }

  /** No part holds the separator. */
  lemma {:induction false} PartsAreClean(s: string, c: char, i: nat)
    requires i < |Split(s, c)|
    ensures c !in Split(s, c)[i]
  {
    if s != "" {
      var rest := Split(s[1..], c);
      if s[0] == c {
        if i > 0 { PartsAreClean(s[1..], c, i - 1); }
      } else {
        PartsAreClean(s[1..], c, i);
      }
    }
  }

  /** Splitting undoes joining parts that do not hold the separator. */
  lemma {:induction false} SplitJoin(parts: seq<string>, c: char)
    requires |parts| >= 1 && forall i :: 0 <= i < |parts| ==> c !in parts[i]
    ensures Split(Join(parts, c), c) == parts
  {
    if |parts| == 1 {
      SplitAlone(parts[0], c);
    } else {
      SplitJoin(parts[1..], c);
      SplitFirst(parts[0], Join(parts[1..], c), c);
    }
  }

  lemma JoinPrepend(ch: char, parts: seq<string>, c: char)
    requires |parts| >= 1
    ensures Join([[ch] + parts[0]] + parts[1..], c) == [ch] + Join(parts, c)
  {
    var longer := [[ch] + parts[0]] + parts[1..];
    if |parts| > 1 {
      assert longer[1..] == parts[1..];
      assert ([ch] + parts[0]) + [c] + Join(parts[1..], c) == [ch] + (parts[0] + [c] + Join(parts[1..], c));
    }
  }

  lemma JoinEmptyFirst(parts: seq<string>, c: char)
    requires |parts| >= 1
    ensures Join([""] + parts, c) == [c] + Join(parts, c)
  {
    assert ([""] + parts)[1..] == parts;
  }

  /** Joining undoes splitting. */
  lemma {:induction false} JoinSplit(s: string, c: char)
    ensures Join(Split(s, c), c) == s
  {
    if s != "" {
      var tail := s[1..];
      JoinSplit(tail, c);
      assert s == [s[0]] + tail;
      if s[0] == c {
        JoinEmptyFirst(Split(tail, c), c);
      } else {
        JoinPrepend(s[0], Split(tail, c), c);
      }
    }
  }
}
