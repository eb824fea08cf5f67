/** The string operations the engine applies to binding declarations, paths and
    property names: `split` on one character, `trim`, and the change-callback name. */
module Text {

  import opened JsValues

  /** `s.split(sep)` for a one-character separator: the pieces between separators. */
  function Split(s: string, sep: char): (pieces: seq<string>)
    ensures |pieces| >= 1
    decreases |s|
  {
    if |s| == 0 then [""]
    else
      var rest := Split(s[1..], sep);
      if s[0] == sep then [""] + rest
      else [[s[0]] + rest[0]] + rest[1..]
  }

  /** `pieces.join(sep)`. */
  function Join(pieces: seq<string>, sep: char): string
    requires |pieces| >= 1
    decreases |pieces|
  {
    if |pieces| == 1 then pieces[0] else pieces[0] + [sep] + Join(pieces[1..], sep)
  }

  /** No piece contains the separator. */
  lemma {:induction false} SplitPiecesClean(s: string, sep: char)
    ensures forall i :: 0 <= i < |Split(s, sep)| ==> sep !in Split(s, sep)[i]
    decreases |s|
  {
    if |s| > 0 {
      SplitPiecesClean(s[1..], sep);
      var rest := Split(s[1..], sep);
      if s[0] != sep {
        assert sep !in [s[0]] + rest[0];
        assert forall i :: 1 <= i < |Split(s, sep)| ==> Split(s, sep)[i] == rest[i];
      } else {
        assert forall i :: 1 <= i < |Split(s, sep)| ==> Split(s, sep)[i] == rest[i - 1];
      }
    }
  }

  /** Splitting loses nothing: joining the pieces gives back the input. */
  lemma {:induction false} JoinSplit(s: string, sep: char)
    ensures Join(Split(s, sep), sep) == s
    decreases |s|
  {
    if |s| > 0 {
      var rest := Split(s[1..], sep);
      JoinSplit(s[1..], sep);
      if s[0] == sep {
        assert ([""] + rest)[1..] == rest;
        assert s == [s[0]] + s[1..];
      } else {
        var ps := [[s[0]] + rest[0]] + rest[1..];
        if |rest| > 1 {
          assert ps[1..] == rest[1..];
          assert s == [s[0]] + s[1..];
        } else {
          assert s == [s[0]] + s[1..];
        }
      }
    }
  }

  /** A separator-free prefix merges into the first piece. */
  lemma {:induction false} SplitPrefix(a: string, t: string, sep: char)
    requires sep !in a
    ensures Split(a + t, sep) == [a + Split(t, sep)[0]] + Split(t, sep)[1..]
    decreases |a|
  {
    if |a| > 0 {
      assert (a + t)[1..] == a[1..] + t;
      assert (a + t)[0] == a[0];
      SplitPrefix(a[1..], t, sep);
      assert [a[0]] + (a[1..] + Split(t, sep)[0]) == a + Split(t, sep)[0];
    } else {
      assert a + t == t;
      assert a + Split(t, sep)[0] == Split(t, sep)[0];
      assert [Split(t, sep)[0]] + Split(t, sep)[1..] == Split(t, sep);
    }
  }

  /** Joining separator-free pieces and splitting again gives back the pieces. */
  lemma {:induction false} SplitJoin(pieces: seq<string>, sep: char)
    requires |pieces| >= 1
    requires forall i :: 0 <= i < |pieces| ==> sep !in pieces[i]
    ensures Split(Join(pieces, sep), sep) == pieces
    decreases |pieces|
  {
    if |pieces| == 1 {
      SplitPrefix(pieces[0], "", sep);
      assert pieces[0] + "" == pieces[0];
      assert Split("", sep) == [""];
      assert pieces == [pieces[0]];
    } else {
      var tail := Join(pieces[1..], sep);
      SplitJoin(pieces[1..], sep);
      assert Join(pieces, sep) == pieces[0] + ([sep] + tail);
      SplitPrefix(pieces[0], [sep] + tail, sep);
      assert ([sep] + tail)[0] == sep && ([sep] + tail)[1..] == tail;
      assert Split([sep] + tail, sep) == [""] + pieces[1..];
      assert pieces[0] + "" == pieces[0];
      assert pieces == [pieces[0]] + pieces[1..];
    }
  }

  /** A string without the separator is one piece. */
  lemma SplitNone(s: string, sep: char)
    requires sep !in s
    ensures Split(s, sep) == [s]
  {
    SplitJoin([s], sep);
  }

  /** There is a second piece exactly when the separator occurs. */
  lemma {:induction false} SplitHasSecond(s: string, sep: char)
    ensures |Split(s, sep)| >= 2 <==> sep in s
    decreases |s|
  {
    if |s| > 0 {
      SplitHasSecond(s[1..], sep);
      assert s == [s[0]] + s[1..];
    }
  }

  /** ECMAScript WhiteSpace and LineTerminator code points, the set `trim` removes:
      tab, line feed, vertical tab, form feed, carriage return, space, no-break space,
      the Unicode space separators, line and paragraph separator, and the byte order
      mark. */
  predicate IsWhitespace(c: char) {
    ('\t' <= c <= '\r') || c == ' ' || c == '\U{00A0}' || c == '\U{1680}'
    || ('\U{2000}' <= c <= '\U{200A}') || c == '\U{2028}' || c == '\U{2029}'
    || c == '\U{202F}' || c == '\U{205F}' || c == '\U{3000}' || c == '\U{FEFF}'
  }

  predicate AllWhitespace(s: string) {
    forall i :: 0 <= i < |s| ==> IsWhitespace(s[i])
  }

  /** `s.trimStart()`. */
  function TrimStart(s: string): string
    decreases |s|
  {
    if |s| > 0 && IsWhitespace(s[0]) then TrimStart(s[1..]) else s
  }

  /** `s.trimEnd()`. */
  function TrimEnd(s: string): string
    decreases |s|
  {
    if |s| > 0 && IsWhitespace(s[|s| - 1]) then TrimEnd(s[..|s| - 1]) else s
  }

  /** `s.trim()`. */
  function Trim(s: string): string {
    TrimEnd(TrimStart(s))
  }

  /** `trimStart` leaves the suffix of s after a run of whitespace. */
  lemma {:induction false} TrimStartShape(s: string)
    ensures |TrimStart(s)| <= |s| && TrimStart(s) == s[|s| - |TrimStart(s)|..]
    ensures AllWhitespace(s[..|s| - |TrimStart(s)|])
    ensures TrimStart(s) == [] || !IsWhitespace(TrimStart(s)[0])
    decreases |s|
  {
    if |s| > 0 && IsWhitespace(s[0]) {
      var t := s[1..];
      TrimStartShape(t);
      var r := TrimStart(t);
      var n := |s| - |r|;
      assert s[n..] == t[n - 1..];
      forall k | 0 <= k < n ensures IsWhitespace(s[..n][k]) {
        if k > 0 {
          assert s[..n][k] == t[..n - 1][k - 1];
          assert IsWhitespace(t[..n - 1][k - 1]);
        } else {
          assert s[..n][k] == s[0];
        }
      }
    }
  }

  /** `trimEnd` leaves the prefix of s before a run of whitespace. */
  lemma {:induction false} TrimEndShape(s: string)
    ensures |TrimEnd(s)| <= |s| && TrimEnd(s) == s[..|TrimEnd(s)|]
    ensures AllWhitespace(s[|TrimEnd(s)|..])
    ensures TrimEnd(s) == [] || !IsWhitespace(TrimEnd(s)[|TrimEnd(s)| - 1])
    decreases |s|
  {
    if |s| > 0 && IsWhitespace(s[|s| - 1]) {
      var t := s[..|s| - 1];
      TrimEndShape(t);
      var r := TrimEnd(t);
      var n := |r|;
      assert s[..n] == t[..n];
      forall k | 0 <= k < |s| - n ensures IsWhitespace(s[n..][k]) {
        if k < |t| - n {
          assert s[n..][k] == t[n..][k];
          assert IsWhitespace(t[n..][k]);
        } else {
          assert s[n..][k] == s[|s| - 1];
        }
      }
    }
  }

  /** `trim` leaves the slice of s between a whitespace prefix and a whitespace
      suffix, neither starting nor ending with whitespace. */
  lemma TrimShape(s: string)
    ensures exists i :: 0 <= i <= |s| - |Trim(s)| && Trim(s) == s[i..i + |Trim(s)|]
                        && AllWhitespace(s[..i]) && AllWhitespace(s[i + |Trim(s)|..])
    ensures Trim(s) == [] || (!IsWhitespace(Trim(s)[0]) && !IsWhitespace(Trim(s)[|Trim(s)| - 1]))
  {
    var t := TrimStart(s);
    TrimStartShape(s);
    TrimEndShape(t);
    var r := TrimEnd(t);
    var i := |s| - |t|;
    assert s[i..][..|r|] == s[i..i + |r|];
    assert s[i + |r|..] == t[|r|..];
    if r != [] {
      assert r[0] == t[0];
    }
  }

  /** Leading whitespace is dropped by `trimStart`. */
  lemma {:induction false} TrimStartSkips(w: string, y: string)
    requires AllWhitespace(w)
    ensures TrimStart(w + y) == TrimStart(y)
    decreases |w|
  {
    if |w| > 0 {
      assert (w + y)[0] == w[0] && (w + y)[1..] == w[1..] + y;
      TrimStartSkips(w[1..], y);
    } else {
      assert w + y == y;
    }
  }

  /** Trailing whitespace is dropped by `trimEnd`. */
  lemma {:induction false} TrimEndSkips(y: string, w: string)
    requires AllWhitespace(w)
    ensures TrimEnd(y + w) == TrimEnd(y)
    decreases |w|
  {
    if |w| > 0 {
      var w' := w[..|w| - 1];
      assert (y + w)[|y + w| - 1] == w[|w| - 1] && (y + w)[..|y + w| - 1] == y + w';
      TrimEndSkips(y, w');
    } else {
      assert y + w == y;
    }
  }

  /** `trimStart` leaves a tail after the first non-whitespace character alone. */
  lemma {:induction false} TrimStartAppend(x: string, w: string)
    requires AllWhitespace(w)
    ensures !AllWhitespace(x) ==> TrimStart(x + w) == TrimStart(x) + w
    ensures AllWhitespace(x) ==> TrimStart(x + w) == [] && TrimStart(x) == []
    decreases |x|
  {
    if |x| == 0 {
      assert x + w == w;
      TrimStartSkips(w, "");
      assert w + "" == w;
    } else {
      assert (x + w)[0] == x[0] && (x + w)[1..] == x[1..] + w;
      TrimStartAppend(x[1..], w);
      if !IsWhitespace(x[0]) {
        assert !AllWhitespace(x) by { assert !IsWhitespace(x[0]); }
      } else {
        assert AllWhitespace(x) ==> AllWhitespace(x[1..]) by {
          if AllWhitespace(x) {
            forall i | 0 <= i < |x[1..]| ensures IsWhitespace(x[1..][i]) { assert x[1..][i] == x[i + 1]; }
          }
        }
        assert AllWhitespace(x[1..]) ==> AllWhitespace(x) by {
          if AllWhitespace(x[1..]) {
            forall i | 0 <= i < |x| ensures IsWhitespace(x[i]) { if i > 0 { assert x[i] == x[1..][i - 1]; } }
          }
        }
      }
    }
  }

  /** Whitespace around a token does not change what `trim` returns. */
  lemma TrimIgnoresPadding(w1: string, x: string, w2: string)
    requires AllWhitespace(w1) && AllWhitespace(w2)
    ensures Trim(w1 + x + w2) == Trim(x)
  {
    assert w1 + x + w2 == w1 + (x + w2);
    TrimStartSkips(w1, x + w2);
    TrimStartAppend(x, w2);
    if !AllWhitespace(x) {
      TrimEndSkips(TrimStart(x), w2);
    }
  }

  /** `c.toUpperCase()` for one character; only ASCII letters are mapped. */
  function UpperChar(c: char): char {
    if 'a' <= c <= 'z' then (c as int - 32) as char else c
  }

  /** The name `notify` looks up: 'on' + upper(first) + rest + 'Change'. Fails on the
      empty name, whose first character is undefined. */
  function CallbackName(propName: string): (r: Result<string>)
    ensures r.Err? <==> propName == []
    ensures r.Ok? ==> |r.value| == |propName| + 8
    ensures r.Ok? ==> r.value[..3] == "on" + [UpperChar(propName[0])]
    ensures r.Ok? ==> r.value[3..|propName| + 2] == propName[1..]
    ensures r.Ok? ==> r.value[|propName| + 2..] == "Change"
  {
    if propName == [] then Err(EmptyName)
    else Ok("on" + [UpperChar(propName[0])] + propName[1..] + "Change")
  }

  /** Two property names share a callback exactly when they differ at most in the
      case of their first letter. */
  lemma CallbackNameCollision(a: string, b: string)
    requires a != [] && b != []
    ensures CallbackName(a) == CallbackName(b)
            <==> UpperChar(a[0]) == UpperChar(b[0]) && a[1..] == b[1..]
  {
    var ra, rb := CallbackName(a).value, CallbackName(b).value;
    if ra == rb {
      assert |a| == |b|;
      assert ra[2] == UpperChar(a[0]) && rb[2] == UpperChar(b[0]);
      assert ra[3..|a| + 2] == a[1..] && rb[3..|b| + 2] == b[1..];
    }
  }
}
