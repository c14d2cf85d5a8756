/** String helpers the core leans on, with Go's and Python's meaning:
    `strings.Split` / `str.split`, `"sep".join`, `strings.TrimSpace`, and the
    label reversal used to build reverse-DNS owner names. */
module Text {

  /** `strings.Split(s, string(sep))` in Go and `s.split(sep)` in Python: the
      maximal runs between separators, so n separators give n + 1 labels. */
  function Split(s: string, sep: char): (r: seq<string>)
    ensures |r| >= 1
    decreases |s|
  {
    if |s| == 0 then [""]
    else
      var rest := Split(s[1..], sep);
      if s[0] == sep then [""] + rest
      else [[s[0]] + rest[0]] + rest[1..]
  }

  /** `strings.Join(parts, string(sep))` and `sep.join(parts)` for a non-empty list. */
  function Join(parts: seq<string>, sep: char): string
    requires |parts| >= 1
    decreases |parts|
  {
    if |parts| == 1 then parts[0] else parts[0] + [sep] + Join(parts[1..], sep)
  }

  /** The list read back to front (Python's `[::-1]`). */
  function Reversed<T>(s: seq<T>): seq<T>
  {
    seq(|s|, i requires 0 <= i < |s| => s[|s| - 1 - i])
  }

  /** Total number of characters in the labels. */
  function Width(parts: seq<string>): nat
    decreases |parts|
  {
    if |parts| == 0 then 0 else |parts[0]| + Width(parts[1..])
  }

  /** Joining what was split gives the string back. */
  lemma {:induction false} JoinSplit(s: string, sep: char)
    ensures Join(Split(s, sep), sep) == s
    decreases |s|
  {
    if |s| > 0 {
      var rest := Split(s[1..], sep);
      JoinSplit(s[1..], sep);
      assert s == [s[0]] + s[1..];
      if s[0] == sep {
        assert ([""] + rest)[1..] == rest;
      } else if |rest| > 1 {
        var parts := [[s[0]] + rest[0]] + rest[1..];
        assert parts[1..] == rest[1..];
        assert Join(rest, sep) == rest[0] + [sep] + Join(rest[1..], sep);
      }
    }
  }

  /** No label of a split contains the separator. */
  lemma {:induction false} SplitLabels(s: string, sep: char)
    ensures forall i :: 0 <= i < |Split(s, sep)| ==> sep !in Split(s, sep)[i]
    decreases |s|
  {
    if |s| > 0 {
      SplitLabels(s[1..], sep);
      var rest := Split(s[1..], sep);
      var r := Split(s, sep);
      if s[0] != sep {
        assert r[0] == [s[0]] + rest[0];
        forall i | 0 <= i < |r| ensures sep !in r[i] {
          if i > 0 {
            assert r[i] == rest[i];
          }
        }
      } else {
        forall i | 0 <= i < |r| ensures sep !in r[i] {
          if i > 0 {
            assert r[i] == rest[i - 1];
          }
        }
      }
    }
  }

  /** Splitting a string that starts with `c`: a separator opens a new
      empty first label, any other character joins the first label. */
  lemma SplitCons(c: char, t: string, sep: char)
    ensures Split([c] + t, sep)
      == if c == sep then [""] + Split(t, sep) else [[c] + Split(t, sep)[0]] + Split(t, sep)[1..]
  {
    assert ([c] + t)[0] == c && ([c] + t)[1..] == t;
  }

  /** Splitting at a separator splits the two sides independently. */
  lemma {:induction false} SplitConcat(a: string, b: string, sep: char)
    ensures Split(a + [sep] + b, sep) == Split(a, sep) + Split(b, sep)
    decreases |a|
  {
    if |a| == 0 {
      assert a + [sep] + b == [sep] + b;
      SplitCons(sep, b, sep);
    } else {
      SplitConcat(a[1..], b, sep);
      SplitConcatStep(a[0], a[1..], b, sep);
      assert a == [a[0]] + a[1..];
    }
  }

  /** One character more in front of the left side of `SplitConcat`. */
  lemma SplitConcatStep(c: char, a: string, b: string, sep: char)
    requires Split(a + [sep] + b, sep) == Split(a, sep) + Split(b, sep)
    ensures Split([c] + a + [sep] + b, sep) == Split([c] + a, sep) + Split(b, sep)
  {
    var t := a + [sep] + b;
    assert Split([c] + a + [sep] + b, sep) == Split([c] + t, sep) by {
      assert [c] + a + [sep] + b == [c] + t;
    }
    SplitCons(c, t, sep);
    SplitCons(c, a, sep);
    ConsLabels(c, sep, Split(a, sep), Split(b, sep));
  }

  /** The label arithmetic behind `SplitConcatStep`: putting `c` in front
      of `tail + right` the way `Split` does it equals putting it in front of
      `tail` and appending `right`. */
  lemma ConsLabels(c: char, sep: char, tail: seq<string>, right: seq<string>)
    requires |tail| >= 1
    ensures var rest := tail + right;
      (if c == sep then [""] + rest else [[c] + rest[0]] + rest[1..])
      == (if c == sep then [""] + tail else [[c] + tail[0]] + tail[1..]) + right
  {
    var rest := tail + right;
    if c != sep {
      assert rest[0] == tail[0];
      assert rest[1..] == tail[1..] + right;
    }
  }

  /** A string without separators is a single label. */
  lemma {:induction false} SplitNoSeparator(a: string, sep: char)
    requires sep !in a
    ensures Split(a, sep) == [a]
    decreases |a|
  {
    if |a| > 0 {
      assert a == [a[0]] + a[1..];
      SplitNoSeparator(a[1..], sep);
    }
  }

  /** Splitting what was joined gives the labels back, provided no label
      contains the separator. */
  lemma {:induction false} SplitJoin(parts: seq<string>, sep: char)
    requires |parts| >= 1
    requires forall i :: 0 <= i < |parts| ==> sep !in parts[i]
    ensures Split(Join(parts, sep), sep) == parts
    decreases |parts|
  {
    if |parts| == 1 {
      SplitNoSeparator(parts[0], sep);
    } else {
      SplitNoSeparator(parts[0], sep);
      SplitConcat(parts[0], Join(parts[1..], sep), sep);
      SplitJoin(parts[1..], sep);
      assert parts == [parts[0]] + parts[1..];
    }
  }

  lemma {:induction false} WidthConcat(a: seq<string>, b: seq<string>)
    ensures Width(a + b) == Width(a) + Width(b)
    decreases |a|
  {
    if |a| == 0 {
      assert a + b == b;
    } else {
      assert (a + b)[0] == a[0];
      assert (a + b)[1..] == a[1..] + b;
      WidthConcat(a[1..], b);
    }
  }

  /** Reversing the labels keeps the total number of characters. */
  lemma {:induction false} WidthReversed(parts: seq<string>)
    ensures Width(Reversed(parts)) == Width(parts)
    decreases |parts|
  {
    var n := |parts|;
    if n > 0 {
      var init := parts[..n - 1];
      assert Reversed(parts) == [parts[n - 1]] + Reversed(init);
      assert Reversed(parts)[1..] == Reversed(init);
      WidthReversed(init);
      assert parts == init + [parts[n - 1]];
      WidthConcat(init, [parts[n - 1]]);
    }
  }

  /** A joined string holds every label character plus one separator between
      neighbouring labels. */
  lemma {:induction false} JoinLength(parts: seq<string>, sep: char)
    requires |parts| >= 1
    ensures |Join(parts, sep)| == Width(parts) + |parts| - 1
    decreases |parts|
  {
    if |parts| > 1 {
      JoinLength(parts[1..], sep);
    }
  }

  /** Reversing twice gives the list back. */
  lemma ReversedTwice<T>(s: seq<T>)
    ensures Reversed(Reversed(s)) == s
  {
  }

  /** `utils.ReverseAddress` / `dnsutils.ReverseAddress`, which the Go code
      applies to `strings.Split(ip, ".")`: the labels joined with dots in
      reverse order, as dnsrbl.py's `reverse` does. */
  function ReverseAddress(labels: seq<string>): (r: string)
    requires |labels| >= 1
  {
    Join(Reversed(labels), '.')
  }

  /** The labels of a reversed address are the original labels back to front. */
  lemma ReverseAddressLabels(labels: seq<string>)
    requires |labels| >= 1
    requires forall i :: 0 <= i < |labels| ==> '.' !in labels[i]
    ensures Split(ReverseAddress(labels), '.') == Reversed(labels)
  {
    SplitJoin(Reversed(labels), '.');
  }

  /** Go's `unicode.IsSpace`: the Latin-1 spaces and the Unicode White_Space
      characters beyond Latin-1. */
  predicate IsSpace(c: char)
  {
    || c == '\t' || c == '\n' || c == '\U{000B}' || c == '\U{000C}' || c == '\r' || c == ' '
    || c == '\U{0085}' || c == '\U{00A0}' || c == '\U{1680}'
    || ('\U{2000}' <= c <= '\U{200A}')
    || c == '\U{2028}' || c == '\U{2029}' || c == '\U{202F}' || c == '\U{205F}' || c == '\U{3000}'
  }

  /** Every character of `s` is white space (vacuously true of ""). */
  predicate IsBlank(s: string)
  {
    forall i :: 0 <= i < |s| ==> IsSpace(s[i])
  }

  /** `s` with its leading white space removed. */
  function TrimLeft(s: string): (r: string)
    ensures |r| <= |s| && r == s[|s| - |r|..]
    ensures forall i :: 0 <= i < |s| - |r| ==> IsSpace(s[i])
    ensures r == [] || !IsSpace(r[0])
    decreases |s|
  {
    if |s| > 0 && IsSpace(s[0]) then TrimLeft(s[1..]) else s
  }

  /** `s` with its trailing white space removed. */
  function TrimRight(s: string): (r: string)
    ensures |r| <= |s| && r == s[..|r|]
    ensures forall i :: |r| <= i < |s| ==> IsSpace(s[i])
    ensures r == [] || !IsSpace(r[|r| - 1])
    decreases |s|
  {
    if |s| > 0 && IsSpace(s[|s| - 1]) then TrimRight(s[..|s| - 1]) else s
  }

  /** Go's `strings.TrimSpace`: the part of `s` between its leading and its
      trailing white space. It is empty exactly when `s` is blank, and
      otherwise starts and ends with a character that is not white space. */
  function TrimSpace(s: string): (r: string)
    ensures |r| == 0 <==> IsBlank(s)
    ensures |r| > 0 ==> !IsSpace(r[0]) && !IsSpace(r[|r| - 1])
    ensures |r| <= |s|
  {
    TrimBoth(s);
    TrimRight(TrimLeft(s))
  }

  lemma TrimBoth(s: string)
    ensures |TrimRight(TrimLeft(s))| == 0 <==> IsBlank(s)
  {
    var l := TrimLeft(s);
    var r := TrimRight(l);
    var k := |s| - |l|;
    if |r| == 0 {
      assert |l| == 0;
    } else {
      assert r[0] == l[0] == s[k];
    }
  }
}
