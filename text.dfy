/** The string operations the ingredient parsers are built from: splitting
    on commas (`String.prototype.split(",")`) and trimming whitespace
    (`String.prototype.trim`, over a reduced whitespace class).
 */
module Text {

  /** The whitespace characters trimming removes: space, tab, CR and LF. */
  predicate IsWs(ch: char)
  {
    ch == ' ' || ch == '\t' || ch == '\r' || ch == '\n'
  }

  predicate AllWs(s: string)
  {
    forall k :: 0 <= k < |s| ==> IsWs(s[k])
  }

  /** Neither end of `s` is whitespace. */
  predicate Trimmed(s: string)
  {
    s == [] || (!IsWs(s[0]) && !IsWs(s[|s| - 1]))
  }

  function TrimStart(s: string): string
  {
    if |s| > 0 && IsWs(s[0]) then TrimStart(s[1..]) else s
  }

  function TrimEnd(s: string): string
  {
    if |s| > 0 && IsWs(s[|s| - 1]) then TrimEnd(s[..|s| - 1]) else s
  }

  /** Whitespace removed from both ends: the result is never longer than
      the input and neither of its ends is whitespace. */
  function Trim(s: string): (r: string)
    ensures |r| <= |s| && Trimmed(r)
  {
    TrimStartSpec(s);
    TrimEndSpec(TrimStart(s));
    TrimEnd(TrimStart(s))
  }

  /** TrimStart keeps a suffix, cuts only whitespace, and stops at the first
      other character. */
  lemma {:induction false} TrimStartSpec(s: string)
    ensures |TrimStart(s)| <= |s| && TrimStart(s) == s[|s| - |TrimStart(s)|..]
    ensures AllWs(s[..|s| - |TrimStart(s)|])
    ensures TrimStart(s) == [] || !IsWs(TrimStart(s)[0])
  {
    if |s| > 0 && IsWs(s[0]) {
      TrimStartSpec(s[1..]);
      var n := |s| - |TrimStart(s)|;
      assert s[..n] == [s[0]] + s[1..][..n - 1];
    }
  }

  /** TrimEnd keeps a prefix, cuts only whitespace, and stops at the last
      other character. */
  lemma {:induction false} TrimEndSpec(s: string)
    ensures |TrimEnd(s)| <= |s| && TrimEnd(s) == s[..|TrimEnd(s)|]
    ensures AllWs(s[|TrimEnd(s)|..])
    ensures TrimEnd(s) == [] || !IsWs(TrimEnd(s)[|TrimEnd(s)| - 1])
  {
    if |s| > 0 && IsWs(s[|s| - 1]) {
      var u := s[..|s| - 1];
      TrimEndSpec(u);
      var n := |TrimEnd(s)|;
      assert s[n..] == u[n..] + [s[|s| - 1]];
      assert s[..n] == u[..n];
    }
  }

  /** Trim keeps a contiguous middle part of its input, cuts only
      whitespace, and leaves neither end whitespace. */
  lemma TrimSpec(s: string)
    ensures exists i, j :: 0 <= i <= j <= |s| && Trim(s) == s[i..j] && AllWs(s[..i]) && AllWs(s[j..])
    ensures Trimmed(Trim(s))
  {
    var t := TrimStart(s);
    TrimStartSpec(s);
    var i := |s| - |t|;
    var r := TrimEnd(t);
    TrimEndSpec(t);
    var j := i + |r|;
    assert r == s[i..j];
    assert AllWs(s[j..]) by {
      assert s[j..] == t[|r|..];
    }
    if r != [] {
      assert r[0] == t[0];
    }
  }

  /** Trimming an already trimmed string changes nothing. */
  lemma TrimIdempotent(s: string)
    ensures Trim(Trim(s)) == Trim(s)
  {
    TrimSpec(s);
  }

  /** A string trims to nothing exactly when it is all whitespace. */
  lemma TrimEmptyIff(s: string)
    ensures Trim(s) == [] <==> AllWs(s)
  {
    TrimSpec(s);
    var i, j :| 0 <= i <= j <= |s| && Trim(s) == s[i..j] && AllWs(s[..i]) && AllWs(s[j..]);
    if Trim(s) == [] {
      forall k | 0 <= k < |s| ensures IsWs(s[k]) {
        if k < i { assert s[..i][k] == s[k]; } else { assert s[j..][k - j] == s[k]; }
      }
    }
  }

  /** Whitespace in front of a string that does not start with whitespace
      is exactly what TrimStart removes. */
  lemma {:induction false} TrimStartPadded(pre: string, rest: string)
    requires AllWs(pre)
    requires rest == [] || !IsWs(rest[0])
    ensures TrimStart(pre + rest) == rest
  {
    if pre != [] {
      assert (pre + rest)[0] == pre[0] && (pre + rest)[1..] == pre[1..] + rest;
      assert AllWs(pre[1..]) by {
        forall k | 0 <= k < |pre[1..]| ensures IsWs(pre[1..][k]) {
          assert pre[1..][k] == pre[k + 1];
        }
      }
      TrimStartPadded(pre[1..], rest);
    }
  }

  /** Whitespace after a string that does not end with whitespace is
      exactly what TrimEnd removes. */
  lemma {:induction false} TrimEndPadded(rest: string, post: string)
    requires AllWs(post)
    requires rest == [] || !IsWs(rest[|rest| - 1])
    ensures TrimEnd(rest + post) == rest
  {
    if post == [] {
      assert rest + post == rest;
    } else {
      var s := rest + post;
      var init := post[..|post| - 1];
      assert s[|s| - 1] == post[|post| - 1];
      assert s[..|s| - 1] == rest + init;
      assert AllWs(init) by {
        forall k | 0 <= k < |init| ensures IsWs(init[k]) {
          assert init[k] == post[k];
        }
      }
      TrimEndPadded(rest, init);
    }
  }

  /** A non-empty trimmed string surrounded by whitespace trims to itself. */
  lemma TrimPadded(pre: string, w: string, post: string)
    requires AllWs(pre) && AllWs(post)
    requires w != [] && Trimmed(w)
    ensures Trim(pre + w + post) == w
  {
    assert pre + w + post == pre + (w + post);
    assert (w + post)[0] == w[0];
    TrimStartPadded(pre, w + post);
    TrimEndPadded(w, post);
  }

  /** Number of commas in `s`. */
  function CommaCount(s: string): nat
  {
    if s == [] then 0 else (if s[0] == ',' then 1 else 0) + CommaCount(s[1..])
  }

  predicate CommaFree(s: string)
  {
    forall k :: 0 <= k < |s| ==> s[k] != ','
  }

  /** `s.split(",")`: the pieces between commas, empty pieces included. */
  function Split(s: string): (parts: seq<string>)
    ensures |parts| == CommaCount(s) + 1
  {
    if s == [] then [""]
    else if s[0] == ',' then [""] + Split(s[1..])
    else
      var rest := Split(s[1..]);
      [[s[0]] + rest[0]] + rest[1..]
  }

  /** `parts.join(",")`. */
  function Join(parts: seq<string>): string
    requires |parts| >= 1
  {
    if |parts| == 1 then parts[0] else parts[0] + "," + Join(parts[1..])
  }

  /** Splitting yields one more piece than there are commas, and no piece
      holds a comma. */
  lemma {:induction false} SplitShape(s: string)
    ensures |Split(s)| == CommaCount(s) + 1
    ensures forall k :: 0 <= k < |Split(s)| ==> CommaFree(Split(s)[k])
  {
    if s != [] {
      SplitShape(s[1..]);
      var rest := Split(s[1..]);
      if s[0] != ',' {
        var head := [s[0]] + rest[0];
        assert CommaFree(rest[0]);
        assert CommaFree(head) by {
          forall k | 0 <= k < |head| ensures head[k] != ',' {
            if k > 0 { assert head[k] == rest[0][k - 1]; }
          }
        }
        assert Split(s) == [head] + rest[1..];
        forall k | 0 <= k < |Split(s)| ensures CommaFree(Split(s)[k]) {
          if k > 0 { assert Split(s)[k] == rest[k]; }
        }
      }
    }
  }

  /** Joining the pieces with commas gives back the input. */
  lemma {:induction false} JoinSplit(s: string)
    ensures Join(Split(s)) == s
  {
    if s != [] {
      JoinSplit(s[1..]);
      var rest := Split(s[1..]);
      if s[0] == ',' {
        assert Split(s)[1..] == rest;
        assert Join(Split(s)) == "" + "," + Join(rest);
      } else {
        var head := [s[0]] + rest[0];
        assert Split(s) == [head] + rest[1..];
        if |rest| == 1 {
          assert Join(Split(s)) == head;
        } else {
          assert Split(s)[1..] == rest[1..];
          assert Join(Split(s)) == head + "," + Join(rest[1..]);
          assert Join(rest) == rest[0] + "," + Join(rest[1..]);
        }
      }
    }
  }

  /** Splitting a comma-join of comma-free pieces gives the pieces back. */
  lemma {:induction false} SplitJoin(parts: seq<string>)
    requires |parts| >= 1
    requires forall k :: 0 <= k < |parts| ==> CommaFree(parts[k])
    ensures Split(Join(parts)) == parts
  {
    if |parts| == 1 {
      SplitCommaFree(parts[0], []);
    } else {
      SplitJoin(parts[1..]);
      SplitCommaFree(parts[0], parts[1..]);
    }
  }

  /** Splitting a comma-free prefix followed by a comma and more text. */
  lemma {:induction false} SplitCommaFree(w: string, tail: seq<string>)
    requires CommaFree(w)
    requires |tail| >= 1 ==> Split(Join(tail)) == tail
    ensures |tail| == 0 ==> Split(w) == [w]
    ensures |tail| >= 1 ==> Split(w + "," + Join(tail)) == [w] + tail
  {
    if w == [] {
      if |tail| >= 1 {
        assert w + "," + Join(tail) == [','] + Join(tail);
        assert ([','] + Join(tail))[1..] == Join(tail);
      }
    } else {
      assert CommaFree(w[1..]) by {
        forall k | 0 <= k < |w[1..]| ensures w[1..][k] != ',' {
          assert w[1..][k] == w[k + 1];
        }
      }
      SplitCommaFree(w[1..], tail);
      if |tail| == 0 {
        assert w == [w[0]] + w[1..];
      } else {
        var s := w + "," + Join(tail);
        assert s[0] == w[0] && s[1..] == w[1..] + "," + Join(tail);
        assert [w[0]] + w[1..] == w;
      }
    }
  }

  /** Splitting at a comma splits each side on its own. */
  lemma {:induction false} SplitAppend(a: string, b: string)
    ensures Split(a + "," + b) == Split(a) + Split(b)
  {
    var s := a + "," + b;
    if a == [] {
      assert s == [','] + b && s[1..] == b;
    } else {
      assert s[0] == a[0] && s[1..] == a[1..] + "," + b;
      SplitAppend(a[1..], b);
    }
  }

  /** `parts.map((s) => s.trim())`. */
  function TrimAll(parts: seq<string>): (r: seq<string>)
    ensures |r| == |parts|
    ensures forall k :: 0 <= k < |r| ==> r[k] == Trim(parts[k])
  {
    if parts == [] then [] else [Trim(parts[0])] + TrimAll(parts[1..])
  }

  lemma {:induction false} TrimAllAppend(a: seq<string>, b: seq<string>)
    ensures TrimAll(a + b) == TrimAll(a) + TrimAll(b)
  {
    if a == [] {
      assert a + b == b;
    } else {
      assert (a + b)[0] == a[0] && (a + b)[1..] == a[1..] + b;
      TrimAllAppend(a[1..], b);
      calc {
        TrimAll(a + b);
        [Trim(a[0])] + TrimAll(a[1..] + b);
        [Trim(a[0])] + (TrimAll(a[1..]) + TrimAll(b));
        ([Trim(a[0])] + TrimAll(a[1..])) + TrimAll(b);
      }
    }
  }

  /** `parts.filter(Boolean)`: the empty strings removed, the rest kept. */
  function DropEmpty(parts: seq<string>): (r: seq<string>)
    ensures |r| <= |parts|
    ensures forall k :: 0 <= k < |r| ==> r[k] != "" && r[k] in parts
    ensures forall k :: 0 <= k < |parts| && parts[k] != "" ==> parts[k] in r
  {
    if parts == [] then []
    else (if parts[0] == "" then [] else [parts[0]]) + DropEmpty(parts[1..])
  }

  /** Dropping empties from a concatenation drops them from each side,
      so the survivors keep their order. */
  lemma {:induction false} DropEmptyAppend(a: seq<string>, b: seq<string>)
    ensures DropEmpty(a + b) == DropEmpty(a) + DropEmpty(b)
  {
    if a == [] {
      assert a + b == b;
    } else {
      assert (a + b)[0] == a[0] && (a + b)[1..] == a[1..] + b;
      DropEmptyAppend(a[1..], b);
      var h := if a[0] == "" then [] else [a[0]];
      calc {
        DropEmpty(a + b);
        h + DropEmpty(a[1..] + b);
        h + (DropEmpty(a[1..]) + DropEmpty(b));
        (h + DropEmpty(a[1..])) + DropEmpty(b);
      }
    }
  }
}
