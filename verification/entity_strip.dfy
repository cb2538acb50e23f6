/** The title clean-up `name.replace(/&lt;.*?&gt;/g, '')`: every shortest
    `&lt;` ... `&gt;` span that stays on one line is deleted, scanning left to
    right and resuming after each deletion. */
module EntityStrip {
  import opened Wrappers
  import opened Sequences

  const Open: string := "&lt;"
  const Close: string := "&gt;"

  /** The characters the regular-expression dot does not match. */
  predicate IsLineTerminator(c: char) {
    c == '\n' || c == '\r' || c == '\U{2028}' || c == '\U{2029}'
  }

  /** `pat` occurs in `s` starting at index `i`. */
  predicate OccursAt(s: string, i: nat, pat: string) {
    i + |pat| <= |s| && s[i..i + |pat|] == pat
  }

  /** No line terminator among `s[lo..hi]`. */
  predicate OnOneLine(s: string, lo: nat, hi: nat)
    requires lo <= hi <= |s|
  {
    forall k :: lo <= k < hi ==> !IsLineTerminator(s[k])
  }

  /** `s[..n]` is a match of the pattern: `&lt;`, any run of
      non-terminators, `&gt;`. */
  predicate IsSpan(s: string, n: nat) {
    && 8 <= n <= |s|
    && OccursAt(s, 0, Open)
    && OccursAt(s, n - 4, Close)
    && OnOneLine(s, 4, n - 4)
  }

  /** Some match of the pattern starts somewhere in `s`. */
  ghost predicate HasSpan(s: string) {
    exists i: nat, n: nat :: i <= |s| && IsSpan(s[i..], n)
  }

  /** The lazy `.*?` followed by `&gt;`, starting at index `j`: the end of the
      first `&gt;` reached before a line terminator, if any. */
  function CloseFrom(s: string, j: nat): (r: Option<nat>)
    requires 4 <= j <= |s|
    ensures r.Some? ==>
              && j + 4 <= r.value <= |s|
              && OccursAt(s, r.value - 4, Close)
              && OnOneLine(s, j, r.value - 4)
              && forall k :: j <= k < r.value - 4 ==> !OccursAt(s, k, Close)
    ensures r.None? ==>
              forall k :: j <= k && k + 4 <= |s| && OnOneLine(s, j, k) ==> !OccursAt(s, k, Close)
    decreases |s| - j
  {
    if OccursAt(s, j, Close) then Some(j + 4)
    else if j < |s| && !IsLineTerminator(s[j]) then CloseFrom(s, j + 1)
    else None
  }

  /** The length of the match anchored at the start of `s`: it is a match and
      no shorter prefix is one; `None` exactly when no prefix matches. */
  function SpanEnd(s: string): (r: Option<nat>)
    ensures r.Some? ==> IsSpan(s, r.value) && forall n: nat :: n < r.value ==> !IsSpan(s, n)
    ensures r.None? ==> forall n: nat :: !IsSpan(s, n)
  {
    if OccursAt(s, 0, Open) then CloseFrom(s, 4) else None
  }

  /** The global replace: delete the match at the current position if there
      is one, otherwise keep one character and move on. */
  function Strip(s: string): (r: string)
    ensures |r| <= |s|
    decreases |s|
  {
    if |s| == 0 then ""
    else match SpanEnd(s) {
      case Some(n) => Strip(s[n..])
      case None => [s[0]] + Strip(s[1..])
    }
  }

  /** Stripping only deletes: the kept characters appear in the input, in order. */
  lemma {:induction false} StripIsSubsequence(s: string)
    ensures IsSubsequence(Strip(s), s)
    decreases |s|
  {
    if |s| > 0 {
      match SpanEnd(s) {
        case Some(n) =>
          StripIsSubsequence(s[n..]);
          SubsequenceOfSuffix(Strip(s), s, n);
        case None =>
          var t := Strip(s[1..]);
          StripIsSubsequence(s[1..]);
          assert ([s[0]] + t)[1..] == t;
      }
    }
  }

  /** A span starting inside the tail `s[1..]` is a span of `s`, one further on. */
  lemma SpanInTail(s: string, i: nat, n: nat)
    requires |s| > 0 && i <= |s| - 1
    ensures IsSpan(s[1..][i..], n) <==> IsSpan(s[i + 1..], n)
  {
    assert s[1..][i..] == s[i + 1..];
  }

  /** Whenever the input holds a match, the output is at least one match
      (eight characters) shorter. */
  lemma {:induction false} StripShrinksWhenSpan(s: string)
    requires HasSpan(s)
    ensures |Strip(s)| <= |s| - 8
    decreases |s|
  {
    var i: nat, n: nat :| i <= |s| && IsSpan(s[i..], n);
    match SpanEnd(s) {
      case Some(m) =>
      case None =>
        if i == 0 {
          assert false;
        }
        SpanInTail(s, i - 1, n);
        assert IsSpan(s[1..][i - 1..], n);
        StripShrinksWhenSpan(s[1..]);
    }
  }

  /** Without any match the input comes back unchanged. */
  lemma {:induction false} StripKeepsSpanFree(s: string)
    requires !HasSpan(s)
    ensures Strip(s) == s
    decreases |s|
  {
    if |s| > 0 {
      assert s[0..] == s;
      if SpanEnd(s).Some? {
        assert false;
      }
      forall i: nat, n: nat | i <= |s[1..]|
        ensures !IsSpan(s[1..][i..], n)
      {
        SpanInTail(s, i, n);
      }
      StripKeepsSpanFree(s[1..]);
      assert [s[0]] + s[1..] == s;
    }
  }

  /** The strip is the identity exactly on strings with no match anywhere. */
  lemma StripFixedIff(s: string)
    ensures Strip(s) == s <==> !HasSpan(s)
  {
    if HasSpan(s) {
      StripShrinksWhenSpan(s);
    } else {
      StripKeepsSpanFree(s);
    }
  }

  /** A string without `&lt;` is returned unchanged. */
  lemma StripWithoutOpen(s: string)
    requires forall i: nat :: !OccursAt(s, i, Open)
    ensures Strip(s) == s
  {
    forall i: nat, n: nat | i <= |s|
      ensures !IsSpan(s[i..], n)
    {
      if IsSpan(s[i..], n) {
        assert s[i..][0..4] == s[i..i + 4];
        assert OccursAt(s, i, Open);
      }
    }
    StripKeepsSpanFree(s);
  }

  /** One character that does not start `&lt;` is kept. */
  lemma StripKeepsFirst(s: string)
    requires |s| > 0 && !OccursAt(s, 0, Open)
    ensures Strip(s) == [s[0]] + Strip(s[1..])
  {
  }

  /** A prefix without `&` is copied through unchanged. */
  lemma {:induction false} StripKeepsPlainPrefix(p: string, t: string)
    requires '&' !in p
    ensures Strip(p + t) == p + Strip(t)
    decreases |p|
  {
    if |p| > 0 {
      assert (p + t)[0] == p[0];
      StripKeepsFirst(p + t);
      assert (p + t)[1..] == p[1..] + t;
      StripKeepsPlainPrefix(p[1..], t);
      assert [p[0]] + p[1..] == p;
    } else {
      assert p + t == t;
    }
  }

  /** A match at the start is dropped whole. */
  lemma StripDropsSpan(s: string, n: nat)
    requires SpanEnd(s) == Some(n)
    ensures Strip(s) == Strip(s[n..])
  {
  }

  /** When the text between `&lt;` and `&gt;` holds no `&` and no line
      terminator, that `&gt;` ends the match. */
  lemma SpanEndOfPlain(s: string, n: nat)
    requires 8 <= n <= |s| && OccursAt(s, 0, Open) && OccursAt(s, n - 4, Close)
    requires forall k :: 4 <= k < n - 4 ==> s[k] != '&' && !IsLineTerminator(s[k])
    ensures SpanEnd(s) == Some(n)
  {
    assert IsSpan(s, n);
    var m := SpanEnd(s).value;
    assert m <= n;
    assert s[m - 4] == '&' by {
      assert s[m - 4..m] == Close;
      assert s[m - 4] == s[m - 4..m][0];
    }
  }

  /** A tag `&lt;t&gt;` whose inner text has no `&` and no line terminator is
      deleted as one match. */
  lemma {:induction false} StripDropsTag(t: string, rest: string)
    requires '&' !in t
    requires forall k :: 0 <= k < |t| ==> !IsLineTerminator(t[k])
    ensures Strip(Open + t + Close + rest) == Strip(rest)
  {
    var s := Open + t + Close + rest;
    var n := 8 + |t|;
    assert s[..4] == Open;
    assert s[n - 4..n] == Close;
    forall k | 4 <= k < n - 4
      ensures s[k] != '&' && !IsLineTerminator(s[k])
    {
      assert s[k] == t[k - 4];
    }
    SpanEndOfPlain(s, n);
    StripDropsSpan(s, n);
    assert s[n..] == rest;
  }

  /** Plain words around single-line tags keep their order while the tags
      disappear. */
  lemma {:induction false} StripTwoTags(w1: string, t1: string, w2: string, t2: string, w3: string)
    requires '&' !in w1 && '&' !in w2 && '&' !in w3 && '&' !in t1 && '&' !in t2
    requires forall k :: 0 <= k < |t1| ==> !IsLineTerminator(t1[k])
    requires forall k :: 0 <= k < |t2| ==> !IsLineTerminator(t2[k])
    ensures Strip(w1 + Open + t1 + Close + w2 + Open + t2 + Close + w3) == w1 + w2 + w3
  {
    var tail := Open + t2 + Close + w3;
    var mid := Open + t1 + Close + (w2 + tail);
    assert w1 + Open + t1 + Close + w2 + Open + t2 + Close + w3 == w1 + mid;
    StripKeepsPlainPrefix(w1, mid);
    StripDropsTag(t1, w2 + tail);
    StripKeepsPlainPrefix(w2, tail);
    StripDropsTag(t2, w3);
    assert w3 + [] == w3;
    StripKeepsPlainPrefix(w3, []);
  }

  /** `&gt;` on its own holds no `&lt;` and is kept. */
  lemma StripKeepsClose()
    ensures Strip(Close) == Close
  {
    assert Close[1] != Open[1];
    StripKeepsFirst(Close);
    assert Close[1..] == "gt;" + [];
    StripKeepsPlainPrefix("gt;", []);
  }

  /** A plain word followed by `&gt;` is kept. */
  lemma StripKeepsWordClose(w: string)
    requires '&' !in w
    ensures Strip("t;" + (w + Close)) == "t;" + (w + Close)
  {
    StripKeepsPlainPrefix(w, Close);
    StripKeepsClose();
    StripKeepsPlainPrefix("t;", w + Close);
  }

  /** A leading `&` that does not start `&lt;` is kept. */
  lemma StripKeepsAmp(x: string)
    requires !OccursAt("&" + x, 0, Open)
    ensures Strip("&" + x) == "&" + Strip(x)
  {
    StripKeepsFirst("&" + x);
    assert ("&" + x)[1..] == x;
  }

  /** After `l`, the tag is deleted and the rest kept. */
  lemma StripSplicedTail(t: string, w: string)
    requires '&' !in t && '&' !in w
    requires forall k :: 0 <= k < |t| ==> !IsLineTerminator(t[k])
    ensures Strip("l" + (Open + t + Close + ("t;" + (w + Close)))) == "l" + ("t;" + (w + Close))
  {
    var rest := "t;" + (w + Close);
    StripKeepsPlainPrefix("l", Open + t + Close + rest);
    StripDropsTag(t, rest);
    StripKeepsWordClose(w);
  }

  lemma SpliceSplit(x: string)
    ensures "&l" + x == "&" + ("l" + x)
    ensures |x| > 0 && x[0] == '&' ==> !OccursAt("&" + ("l" + x), 0, Open)
  {
    if |x| > 0 && x[0] == '&' {
      assert ("&" + ("l" + x))[2] == '&';
    }
  }

  /** Deleting a tag between `&l` and `t;` splices a fresh `&lt;` together. */
  lemma {:induction false} StripSplicesOpen(t: string, w: string)
    requires '&' !in t && '&' !in w
    requires forall k :: 0 <= k < |t| ==> !IsLineTerminator(t[k])
    ensures Strip("&l" + (Open + t + Close + ("t;" + (w + Close)))) == "&l" + ("t;" + (w + Close))
  {
    var rest := "t;" + (w + Close);
    var inner := Open + t + Close + rest;
    assert inner[0] == '&';
    SpliceSplit(inner);
    SpliceSplit(rest);
    StripSplicedTail(t, w);
    StripKeepsAmp("l" + inner);
  }

  lemma ExampleTitleShape(title: string)
    requires title == "A &lt;i&gt;Simple&lt;/i&gt; Method"
    ensures title == "A " + Open + "i" + Close + "Simple" + Open + "/i" + Close + " Method"
  {
  }

  lemma ExampleWords()
    ensures "A " + "Simple" + " Method" == "A Simple Method"
  {
  }

  /** The title from issue 9 of the repository: markup entities vanish, the
      surrounding words stay. */
  lemma StripExample(title: string)
    requires title == "A &lt;i&gt;Simple&lt;/i&gt; Method"
    ensures Strip(title) == "A Simple Method"
  {
    ExampleTitleShape(title);
    StripTwoTags("A ", "i", "Simple", "/i", " Method");
    ExampleWords();
  }

  lemma SpliceShape(s: string)
    requires s == "&l&lt;a&gt;t;b&gt;"
    ensures s == "&l" + (Open + "a" + Close + ("t;" + ("b" + Close)))
    ensures "&l" + ("t;" + ("b" + Close)) == Open + "b" + Close + []
  {
  }

  /** Deleting a match can splice a new `&lt;` together, so a second pass
      deletes more: the strip is not idempotent. */
  lemma StripNotIdempotent(s: string)
    requires s == "&l&lt;a&gt;t;b&gt;"
    ensures Strip(s) == Open + "b" + Close
    ensures Strip(Strip(s)) == ""
  {
    SpliceShape(s);
    StripSplicesOpen("a", "b");
    StripDropsTag("b", []);
  }
}
