/**
 * String helpers the key encodings rely on: the lexicographic order DynamoDB
 * uses to sort string sort keys, prefixes (for `begins_with`) and the field
 * selection of Go's `strings.Split(s, sep)[n]`.
 */
module Text {
  import opened Optional

  /** Strict lexicographic order, character by character (code-point order,
      which is also the byte order of the UTF-8 encoding DynamoDB compares). */
  predicate Less(a: string, b: string)
  {
    |b| > 0 && (|a| == 0 || a[0] < b[0] || (a[0] == b[0] && Less(a[1..], b[1..])))
  }

  lemma {:induction false} LessIrreflexive(a: string)
    ensures !Less(a, a)
  {
    if |a| > 0 {
      LessIrreflexive(a[1..]);
    }
  }

  lemma {:induction false} LessTransitive(a: string, b: string, c: string)
    requires Less(a, b) && Less(b, c)
    ensures Less(a, c)
  {
    if |a| > 0 && a[0] == b[0] && b[0] == c[0] {
      LessTransitive(a[1..], b[1..], c[1..]);
    }
  }

  lemma {:induction false} LessTotal(a: string, b: string)
    requires a != b
    ensures Less(a, b) || Less(b, a)
  {
    if |a| > 0 && |b| > 0 && a[0] == b[0] {
      assert a == [a[0]] + a[1..] && b == [b[0]] + b[1..];
      LessTotal(a[1..], b[1..]);
    }
  }

  lemma LessAsymmetric(a: string, b: string)
    requires Less(a, b)
    ensures !Less(b, a)
  {
    if Less(b, a) {
      LessTransitive(a, b, a);
      LessIrreflexive(a);
    }
  }

  /** Comparing two strings that share a prefix compares what follows it. */
  lemma {:induction false} LessCommonPrefix(p: string, a: string, b: string)
    ensures Less(p + a, p + b) <==> Less(a, b)
  {
    if |p| > 0 {
      assert (p + a)[1..] == p[1..] + a;
      assert (p + b)[1..] == p[1..] + b;
      LessCommonPrefix(p[1..], a, b);
    } else {
      assert p + a == a && p + b == b;
    }
  }

  /** Comparing two strings of equal length extended by one character each:
      the heads decide, and only equal heads let the last characters decide. */
  lemma {:induction false} LessSnoc(a: string, b: string, x: char, y: char)
    requires |a| == |b|
    ensures Less(a + [x], b + [y]) <==> Less(a, b) || (a == b && x < y)
  {
    if |a| > 0 {
      assert (a + [x])[1..] == a[1..] + [x];
      assert (b + [y])[1..] == b[1..] + [y];
      LessSnoc(a[1..], b[1..], x, y);
      if a[0] == b[0] {
        assert a == [a[0]] + a[1..] && b == [b[0]] + b[1..];
      }
    }
  }

  /** A proper prefix sorts before the longer string. */
  lemma {:induction false} LessProperPrefix(p: string, s: string)
    requires |s| > 0
    ensures Less(p, p + s)
  {
    if |p| > 0 {
      assert (p + s)[1..] == p[1..] + s;
      LessProperPrefix(p[1..], s);
    }
  }

  predicate IsPrefix(p: string, s: string)
  {
    |p| <= |s| && s[..|p|] == p
  }

  /** Position of the first occurrence of `c` in `s`. */
  function IndexOf(s: string, c: char): (r: Option<nat>)
    ensures r.None? <==> c !in s
    ensures r.Some? ==> r.value < |s| && s[r.value] == c && c !in s[..r.value]
  {
    if |s| == 0 then None
    else if s[0] == c then Some(0)
    else match IndexOf(s[1..], c)
      case None => None
      case Some(i) => assert s[..i + 1] == [s[0]] + s[1..][..i]; Some(i + 1)
  }

  /**
   * Field `n` of `s` split at every `sep`, or None when `s` has `n` or fewer
   * separators — Go's `strings.Split(s, string(sep))[n]`, whose index
   * expression panics in that case.
   */
  function Field(s: string, sep: char, n: nat): Option<string>
    decreases |s|
  {
    match IndexOf(s, sep)
    case None => if n == 0 then Some(s) else None
    case Some(i) => if n == 0 then Some(s[..i]) else Field(s[i + 1..], sep, n - 1)
  }

  /** Field 1 of `head + [sep] + tail` is `tail` itself when neither part holds
      the separator: the decoding half of every `PREFIX#value` key. */
  lemma SecondField(head: string, sep: char, tail: string)
    requires sep !in head && sep !in tail
    ensures Field(head + [sep] + tail, sep, 1) == Some(tail)
  {
    var s := head + [sep] + tail;
    assert s[..|head|] == head;
    assert s[|head|] == sep;
    assert IndexOf(s, sep) == Some(|head|);
    assert s[|head| + 1..] == tail;
    assert IndexOf(tail, sep) == None;
  }
}
