/** Small string utilities shared by the recipient formatters and their parsers. */
module Text {

  import opened Wrappers

  /** Sum of the lengths of `ts`. */
  function TotalLength(ts: seq<string>): nat
  {
    if |ts| == 0 then 0 else |ts[0]| + TotalLength(ts[1..])
  }

  /** Number of occurrences of `c` in `s`. */
  function CountChar(s: string, c: char): nat
  {
    if |s| == 0 then 0 else (if s[0] == c then 1 else 0) + CountChar(s[1..], c)
  }

  /** The tokens `ts` with a single comma between consecutive tokens and none before the
      first or after the last; the empty sequence joins to the empty string. */
  function Join(ts: seq<string>): string
  {
    if |ts| == 0 then ""
    else if |ts| == 1 then ts[0]
    else ts[0] + "," + Join(ts[1..])
  }

  /** The joined string starts with the first token, ends with the last, and is as long
      as the tokens together plus one separator between each consecutive pair. */
  lemma {:induction false} JoinShape(ts: seq<string>)
    ensures |Join(ts)| == TotalLength(ts) + (if |ts| == 0 then 0 else |ts| - 1)
    ensures |ts| > 0 ==> |ts[0]| <= |Join(ts)| && Join(ts)[..|ts[0]|] == ts[0]
    ensures |ts| > 0 ==> |ts[|ts| - 1]| <= |Join(ts)| && Join(ts)[|Join(ts)| - |ts[|ts| - 1]|..] == ts[|ts| - 1]
  {
    if |ts| > 1 {
      JoinShape(ts[1..]);
    }
  }

  /** Appending one more token adds exactly one separator and that token. */
  lemma {:induction false} JoinSnoc(ts: seq<string>, t: string)
    requires |ts| > 0
    ensures Join(ts + [t]) == Join(ts) + "," + t
  {
    if |ts| == 1 {
      assert ts + [t] == [ts[0], t];
      assert (ts + [t])[1..] == [t];
    } else {
      assert (ts + [t])[1..] == ts[1..] + [t];
      JoinSnoc(ts[1..], t);
    }
  }

  /** Counting distributes over concatenation. */
  lemma {:induction false} CountCharConcat(a: string, b: string, c: char)
    ensures CountChar(a + b, c) == CountChar(a, c) + CountChar(b, c)
  {
    if |a| == 0 {
      assert a + b == b;
    } else {
      assert (a + b)[1..] == a[1..] + b;
      CountCharConcat(a[1..], b, c);
    }
  }

  /** A character occurs nowhere exactly when its count is zero. */
  lemma {:induction false} CountCharZero(s: string, c: char)
    ensures CountChar(s, c) == 0 <==> c !in s
  {
    if |s| > 0 {
      CountCharZero(s[1..], c);
      assert s == [s[0]] + s[1..];
    }
  }

  /** When no token contains a comma, the commas of the joined string are exactly the
      separators: one fewer than the tokens, and none for zero or one token. */
  lemma {:induction false} JoinSeparatorCount(ts: seq<string>)
    requires forall i :: 0 <= i < |ts| ==> ',' !in ts[i]
    ensures CountChar(Join(ts), ',') == if |ts| == 0 then 0 else |ts| - 1
  {
    if |ts| == 0 {
    } else if |ts| == 1 {
      CountCharZero(ts[0], ',');
    } else {
      JoinSeparatorCount(ts[1..]);
      CountCharConcat(ts[0], ",", ',');
      CountCharConcat(ts[0] + ",", Join(ts[1..]), ',');
      CountCharZero(ts[0], ',');
      assert CountChar(",", ',') == 1;
    }
  }

  /** Splits `s` at its first occurrence of `c`: the text before it and the text after it;
      `None` when `c` does not occur. */
  function SplitAt(s: string, c: char): (r: Option<(string, string)>)
    ensures r.None? <==> c !in s
    ensures r.Some? ==> s == r.value.0 + [c] + r.value.1 && c !in r.value.0
  {
    if |s| == 0 then None
    else if s[0] == c then Some(("", s[1..]))
    else match SplitAt(s[1..], c)
      case None => None
      case Some(p) => Some(([s[0]] + p.0, p.1))
  }

  /** A text free of `c`, then `c`, then anything: the split recovers both parts. */
  lemma {:induction false} SplitAtFirst(a: string, c: char, rest: string)
    requires c !in a
    ensures SplitAt(a + [c] + rest, c) == Some((a, rest))
  {
    var s := a + [c] + rest;
    if |a| == 0 {
      assert s[1..] == rest;
    } else {
      assert s[0] == a[0] != c;
      assert s[1..] == a[1..] + [c] + rest;
      SplitAtFirst(a[1..], c, rest);
      assert [a[0]] + a[1..] == a;
    }
  }
}
