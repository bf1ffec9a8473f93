/** String helpers that mirror the Python string operations the report code
    relies on: `"".join`, `sep.join` and `str.split(sep)`. */
module Text {

  /** `"".join(parts)`: the parts one after another, nothing in between. */
  function Concat(parts: seq<string>): string
  {
    if |parts| == 0 then "" else parts[0] + Concat(parts[1..])
  }

  /** `sep.join(parts)`: the parts with `sep` placed between neighbours. */
  function Join(parts: seq<string>, sep: string): string
  {
    if |parts| == 0 then ""
    else if |parts| == 1 then parts[0]
    else parts[0] + sep + Join(parts[1..], sep)
  }

  /** Appending one part at the end of a `"".join` appends its text. */
  lemma {:induction false} ConcatAppend(parts: seq<string>, last: string)
    ensures Concat(parts + [last]) == Concat(parts) + last
  {
    if |parts| == 0 {
      assert parts + [last] == [last];
    } else {
      assert (parts + [last])[1..] == parts[1..] + [last];
      ConcatAppend(parts[1..], last);
    }
  }

  /** Appending one part at the end of a `sep.join` adds the separator and
      the part, unless there was nothing to separate from. */
  lemma {:induction false} JoinAppend(parts: seq<string>, sep: string, last: string)
    ensures |parts| == 0 ==> Join(parts + [last], sep) == last
    ensures |parts| > 0 ==> Join(parts + [last], sep) == Join(parts, sep) + sep + last
    ensures Join(parts + [last], sep) == Join(parts, sep) + (if |parts| == 0 then "" else sep) + last
  {
    if |parts| == 0 {
      assert parts + [last] == [last];
      assert Join(parts, sep) + "" + last == last;
    } else if |parts| == 1 {
      assert parts + [last] == [parts[0], last];
      assert (parts + [last])[1..] == [last];
    } else {
      assert (parts + [last])[1..] == parts[1..] + [last];
      JoinAppend(parts[1..], sep, last);
    }
  }

  /** Index of the first occurrence of `c` in `s`, or `|s|` when there is none. */
  function IndexOf(s: string, c: char): (i: nat)
    ensures i <= |s|
    ensures c !in s[..i]
    ensures i < |s| ==> s[i] == c
    ensures i == |s| <==> c !in s
  {
    if |s| == 0 then 0
    else if s[0] == c then 0
    else
      var k := IndexOf(s[1..], c);
      assert s[..k + 1] == [s[0]] + s[1..][..k];
      1 + k
  }

  /** `s.split(c)` for a one-character separator: the pieces between the
      occurrences of `c`, including empty ones; always at least one piece. */
  function Split(s: string, c: char): (r: seq<string>)
    ensures |r| >= 1
    ensures forall k :: 0 <= k < |r| ==> c !in r[k]
    ensures Join(r, [c]) == s
    decreases |s|
  {
    var i := IndexOf(s, c);
    if i == |s| then [s]
    else
      var rest := Split(s[i + 1..], c);
      assert ([s[..i]] + rest)[1..] == rest;
      assert s == s[..i] + [c] + s[i + 1..];
      [s[..i]] + rest
  }

  /** Splitting on `c` undoes joining with `c`, provided no part contains `c`
      (the empty list is excluded: it joins to "" like the list [""]). */
  lemma {:induction false} SplitJoin(parts: seq<string>, c: char)
    requires |parts| > 0
    requires forall k :: 0 <= k < |parts| ==> c !in parts[k]
    ensures Split(Join(parts, [c]), c) == parts
  {
    if |parts| == 1 {
      assert Join(parts, [c]) == parts[0];
    } else {
      var rest := Join(parts[1..], [c]);
      var s := parts[0] + [c] + rest;
      assert Join(parts, [c]) == s;
      var i := IndexOf(s, c);
      assert s[|parts[0]|] == c;
      assert s[..|parts[0]|] == parts[0];
      assert i == |parts[0]|;
      assert s[..i] == parts[0];
      assert s[i + 1..] == rest;
      SplitJoin(parts[1..], c);
    }
  }

  /** `s.split(c)[0]`: the prefix of `s` before the first `c`. */
  function FirstField(s: string, c: char): (r: string)
    ensures c !in r
    ensures r <= s
    ensures |r| < |s| ==> s[|r|] == c
  {
    Split(s, c)[0]
  }

  /** A field free of `c` followed by `c` is what `split(c)[0]` returns. */
  lemma FirstFieldOf(field: string, c: char, rest: string)
    requires c !in field
    ensures FirstField(field + [c] + rest, c) == field
  {
    var s := field + [c] + rest;
    var i := IndexOf(s, c);
    assert s[..|field|] == field;
    assert s[|field|] == c;
    assert s[..i] == field;
  }

  /** Text added at the end of the variable part of a template lands just
      before the template's closing text. */
  lemma TemplateGrows(before: string, after: string, open: string, body: string,
                      sep: string, more: string, close: string)
    requires before == open + body + close
    requires after == open + (body + sep + more) + close
    ensures |before| >= |close|
    ensures after == before[..|before| - |close|] + sep + more + close
  {
    assert before[..|before| - |close|] == open + body;
  }

  /** The same, for text added with no separator. */
  lemma TemplateAppend(before: string, after: string, open: string, body: string,
                       more: string, close: string)
    requires before == open + body + close
    requires after == open + (body + more) + close
    ensures |before| >= |close|
    ensures after == before[..|before| - |close|] + more + close
  {
    assert before[..|before| - |close|] == open + body;
  }

  /** `s` is `open`, then `mid`, then `close`, and each piece can be sliced
      back out of it. */
  predicate Wraps(s: string, open: string, mid: string, close: string)
  {
    && |s| == |open| + |mid| + |close|
    && s[..|open|] == open
    && s[|open|..|s| - |close|] == mid
    && s[|s| - |close|..] == close
  }

  lemma WrapsConcat(open: string, mid: string, close: string)
    ensures Wraps(open + mid + close, open, mid, close)
  {
    var s := open + mid + close;
    assert s[..|open|] == open;
    assert s[|open|..|s| - |close|] == mid;
    assert s[|s| - |close|..] == close;
  }

  /** A five-piece template: the outer pieces wrap the inner three, which in
      turn can be taken apart. */
  lemma WrapsConcat5(a: string, b: string, c: string, d: string, e: string)
    ensures Wraps(a + b + c + d + e, a, b + c + d, e)
    ensures Wraps(b + c + d, b, c, d)
  {
    assert a + b + c + d + e == a + (b + c + d) + e;
    WrapsConcat(a, b + c + d, e);
    WrapsConcat(b, c, d);
  }

  /** Whatever sits between the same two pieces is determined by the whole. */
  lemma WrapsUnique(s: string, open: string, mid1: string, mid2: string, close: string)
    requires Wraps(s, open, mid1, close) && Wraps(s, open, mid2, close)
    ensures mid1 == mid2
  {
  }

  /** Regrouping a concatenation of eight pieces. Stated over plain
      variables, it lets a proof about fixed templates move the brackets
      without unfolding the templates' text. */
  lemma Regroup(a: string, b: string, c: string, d: string, e: string, f: string, g: string, h: string)
    ensures (a + b) + (c + d + e) + (f + g) + "" + h == a + b + c + d + e + f + g + h
  {
  }
}
