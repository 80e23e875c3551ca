/**
  The few Python string operations the ghostwriter relies on, written out on
  `seq<char>`: `str.split(sep)` with a non-empty separator, `sep.join(parts)`,
  `str.replace(sub, '')` and `str.strip()`.
 */
module Text {

  /** Python's `str.isspace` for a single code point. */
  predicate IsSpace(c: char)
  {
    c == ' ' || ('\t' <= c <= '\r') || ('\U{1c}' <= c <= '\U{1f}') ||
    c == '\U{85}' || c == '\U{a0}' || c == '\U{1680}' || ('\U{2000}' <= c <= '\U{200a}') ||
    c == '\U{2028}' || c == '\U{2029}' || c == '\U{202f}' || c == '\U{205f}' || c == '\U{3000}'
  }

  /** No occurrence of `sep` starts at a position before `n` in `s`. */
  ghost predicate NoSepBefore(s: string, n: nat, sep: string)
  {
    forall k :: 0 <= k < n && k <= |s| ==> !(sep <= s[k..])
  }

  /**
    `s.split(sep)`: scanning left to right, every non-overlapping occurrence of
    `sep` ends one part and starts the next.
   */
  function Split(s: string, sep: string): (parts: seq<string>)
    requires sep != []
    ensures |parts| >= 1
    decreases |s|
  {
    if s == [] then [[]]
    else if sep <= s then [[]] + Split(s[|sep|..], sep)
    else
      var rest := Split(s[1..], sep);
      [[s[0]] + rest[0]] + rest[1..]
  }

  /** `sep.join(parts)`. */
  function Join(sep: string, parts: seq<string>): string
  {
    if |parts| == 0 then []
    else if |parts| == 1 then parts[0]
    else parts[0] + sep + Join(sep, parts[1..])
  }

  /** The concatenation of a sequence of strings (`''.join(parts)`). */
  function Concat(parts: seq<string>): string
  {
    if parts == [] then [] else parts[0] + Concat(parts[1..])
  }

  /** `s.replace(sub, '')`: every non-overlapping occurrence, left to right, is dropped. */
  function RemoveAll(s: string, sub: string): (r: string)
    requires sub != []
    ensures |r| <= |s|
    decreases |s|
  {
    if s == [] then []
    else if sub <= s then RemoveAll(s[|sub|..], sub)
    else [s[0]] + RemoveAll(s[1..], sub)
  }

  /** No part of a split on one character contains that character. */
  lemma {:induction false} SplitOmits(s: string, c: char)
    ensures forall i :: 0 <= i < |Split(s, [c])| ==> c !in Split(s, [c])[i]
    decreases |s|
  {
    if s != [] {
      SplitOmits(s[1..], c);
      assert s[..1] == [s[0]];
    }
  }

  /** `s.replace(c, '')` leaves no `c`. */
  lemma {:induction false} RemoveAllOmits(s: string, c: char)
    ensures c !in RemoveAll(s, [c])
    decreases |s|
  {
    if s != [] {
      RemoveAllOmits(s[1..], c);
      assert s[..1] == [s[0]];
    }
  }

  /** `s.lstrip()`: a suffix of `s`, only whitespace was dropped. */
  function StripLeft(s: string): (r: string)
    ensures |r| <= |s| && r == s[|s| - |r|..]
    ensures r == [] || !IsSpace(r[0])
  {
    if s != [] && IsSpace(s[0]) then StripLeft(s[1..]) else s
  }

  /** `s.rstrip()`: a prefix of `s`, only whitespace was dropped. */
  function StripRight(s: string): (r: string)
    ensures |r| <= |s| && r == s[..|r|]
    ensures r == [] || !IsSpace(r[|r| - 1])
  {
    if s != [] && IsSpace(s[|s| - 1]) then StripRight(s[..|s| - 1]) else s
  }

  /** `s.strip()`: a slice of `s` with neither end whitespace. */
  function Strip(s: string): (r: string)
    ensures |r| <= |s|
    ensures r == [] || (!IsSpace(r[0]) && !IsSpace(r[|r| - 1]))
  {
    StripRight(StripLeft(s))
  }

  /** `lstrip()` drops whitespace only. */
  lemma {:induction false} StripLeftDropsSpace(s: string)
    ensures forall k :: 0 <= k < |s| - |StripLeft(s)| ==> IsSpace(s[k])
    decreases |s|
  {
    if s != [] && IsSpace(s[0]) {
      StripLeftDropsSpace(s[1..]);
      forall k | 1 <= k < |s| - |StripLeft(s)| ensures IsSpace(s[k]) {
        assert s[k] == s[1..][k - 1];
      }
    }
  }

  /** `rstrip()` drops whitespace only. */
  lemma {:induction false} StripRightDropsSpace(s: string)
    ensures forall k :: |StripRight(s)| <= k < |s| ==> IsSpace(s[k])
    decreases |s|
  {
    if s != [] && IsSpace(s[|s| - 1]) {
      StripRightDropsSpace(s[..|s| - 1]);
      forall k | |StripRight(s)| <= k < |s| - 1 ensures IsSpace(s[k]) {
        assert s[k] == s[..|s| - 1][k];
      }
    }
  }

  /** Neither end of `s` is whitespace: what `strip()` leaves unchanged. */
  predicate Trimmed(s: string)
  {
    s == [] || (!IsSpace(s[0]) && !IsSpace(s[|s| - 1]))
  }

  /** `strip()` is the identity exactly on texts with no whitespace at either end. */
  lemma StripTrimmed(s: string)
    ensures Strip(s) == s <==> Trimmed(s)
  {
    if Trimmed(s) && s != [] {
      assert StripLeft(s) == s;
    }
  }

  /** Splitting and joining with the same separator gives the text back. */
  lemma {:induction false} JoinSplit(s: string, sep: string)
    requires sep != []
    ensures Join(sep, Split(s, sep)) == s
    decreases |s|
  {
    if s == [] {
    } else if sep <= s {
      var rest := s[|sep|..];
      JoinSplit(rest, sep);
      assert s == sep + rest;
      var parts := Split(rest, sep);
      assert Split(s, sep) == [[]] + parts;
      JoinCons(sep, [], parts);
    } else {
      var rest := Split(s[1..], sep);
      JoinSplit(s[1..], sep);
      assert Split(s, sep) == [[s[0]] + rest[0]] + rest[1..];
      JoinFirst(sep, s[0], rest);
      assert s == [s[0]] + s[1..];
    }
  }

  /** Unfolding `Join` at a first part followed by more parts. */
  lemma JoinCons(sep: string, p: string, parts: seq<string>)
    requires parts != []
    ensures Join(sep, [p] + parts) == p + sep + Join(sep, parts)
  {
    assert ([p] + parts)[0] == p && ([p] + parts)[1..] == parts;
  }

  /** A character put in front of the first part comes out in front of the join. */
  lemma JoinFirst(sep: string, c: char, parts: seq<string>)
    requires parts != []
    ensures Join(sep, [[c] + parts[0]] + parts[1..]) == [c] + Join(sep, parts)
  {
    var q := [[c] + parts[0]] + parts[1..];
    assert q[0] == [c] + parts[0] && q[1..] == parts[1..];
    if |parts| > 1 {
      assert Join(sep, parts) == parts[0] + sep + Join(sep, parts[1..]);
    }
  }

  /** A separator occurrence right after a separator-free prefix `a` ends the first part. */
  lemma {:induction false} SplitAt(a: string, b: string, sep: string)
    requires sep != []
    requires NoSepBefore(a + sep + b, |a|, sep)
    ensures Split(a + sep + b, sep) == [a] + Split(b, sep)
    decreases |a|
  {
    var s := a + sep + b;
    if a == [] {
      assert s == sep + b;
      assert s[|sep|..] == b;
    } else {
      assert !(sep <= s[0..]);
      assert s[0..] == s;
      var t := a[1..] + sep + b;
      assert s[1..] == t;
      forall k | 0 <= k < |a| - 1 && k <= |t| ensures !(sep <= t[k..]) {
        assert t[k..] == s[k + 1..];
      }
      SplitAt(a[1..], b, sep);
      assert [a[0]] + a[1..] == a;
    }
  }

  /** A text without any occurrence of the separator is a single part. */
  lemma {:induction false} SplitNone(s: string, sep: string)
    requires sep != []
    requires NoSepBefore(s, |s|, sep)
    ensures Split(s, sep) == [s]
    decreases |s|
  {
    if s != [] {
      assert !(sep <= s[0..]) && s[0..] == s;
      forall k | 0 <= k < |s| - 1 ensures !(sep <= s[1..][k..]) {
        assert s[1..][k..] == s[k + 1..];
      }
      SplitNone(s[1..], sep);
      assert [s[0]] + s[1..] == s;
    }
  }

  /** Joining two non-empty lists equals joining each and gluing with one separator. */
  lemma {:induction false} JoinAppend(sep: string, a: seq<string>, b: seq<string>)
    requires a != [] && b != []
    ensures Join(sep, a + b) == Join(sep, a) + sep + Join(sep, b)
    decreases |a|
  {
    if |a| == 1 {
      assert (a + b)[1..] == b;
    } else {
      JoinAppend(sep, a[1..], b);
      assert (a + b)[1..] == a[1..] + b;
    }
  }

  /** For a one-character separator, `sep.join` undoes `split` on parts free of it. */
  lemma {:induction false} SplitJoin(ws: seq<string>, c: char)
    requires ws != []
    requires forall i :: 0 <= i < |ws| ==> c !in ws[i]
    ensures Split(Join([c], ws), [c]) == ws
    decreases |ws|
  {
    var w := ws[0];
    assert NoSepBefore(w, |w|, [c]) by {
      forall k | 0 <= k < |w| ensures !([c] <= w[k..]) {
        assert w[k..][0] == w[k];
      }
    }
    if |ws| == 1 {
      SplitNone(w, [c]);
    } else {
      var rest := Join([c], ws[1..]);
      assert NoSepBefore(w + [c] + rest, |w|, [c]) by {
        forall k | 0 <= k < |w| ensures !([c] <= (w + [c] + rest)[k..]) {
          assert (w + [c] + rest)[k..][0] == w[k];
        }
      }
      SplitAt(w, rest, [c]);
      SplitJoin(ws[1..], c);
      assert [w] + ws[1..] == ws;
    }
  }

  /** The parts of a split on one character, concatenated, are the text without that character. */
  lemma {:induction false} ConcatSplit(s: string, c: char)
    ensures Concat(Split(s, [c])) == RemoveAll(s, [c])
    decreases |s|
  {
    if s == [] {
    } else if [c] <= s {
      ConcatSplit(s[1..], c);
      assert Concat([[]] + Split(s[1..], [c])) == Concat(Split(s[1..], [c]));
    } else {
      var rest := Split(s[1..], [c]);
      ConcatSplit(s[1..], c);
      var parts := [[s[0]] + rest[0]] + rest[1..];
      assert Concat(rest) == rest[0] + Concat(rest[1..]);
      assert parts[1..] == rest[1..];
      assert Concat(parts) == [s[0]] + rest[0] + Concat(rest[1..]);
    }
  }

  /** Whitespace around a stripped text is what `strip()` removes again. */
  lemma StripFramed(v: string)
    requires Trimmed(v)
    ensures Strip("\n" + v + "\n") == v
  {
    var s := "\n" + v + "\n";
    var t := v + "\n";
    assert s[1..] == t && s[0] == '\n';
    LeftSkip(s);
    if v == [] {
      assert t[0] == '\n' && t[1..] == [];
      LeftSkip(t);
      LeftStop([]);
      RightStop([]);
    } else {
      assert t[0] == v[0];
      LeftStop(t);
      assert t[..|t| - 1] == v && t[|t| - 1] == '\n';
      RightSkip(t);
      RightStop(v);
    }
  }

  lemma LeftSkip(s: string)
    requires s != [] && IsSpace(s[0])
    ensures StripLeft(s) == StripLeft(s[1..])
  {
  }

  lemma LeftStop(s: string)
    requires s == [] || !IsSpace(s[0])
    ensures StripLeft(s) == s
  {
  }

  lemma RightSkip(s: string)
    requires s != [] && IsSpace(s[|s| - 1])
    ensures StripRight(s) == StripRight(s[..|s| - 1])
  {
  }

  lemma RightStop(s: string)
    requires s == [] || !IsSpace(s[|s| - 1])
    ensures StripRight(s) == s
  {
  }
}
