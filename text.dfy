/**
 * The string operations the generation pages apply to words: Python's
 * `str.strip()`, `str.lower()`, the ordering `sorted` uses on strings, and
 * `", ".join(...)`.
 */
module Text {

  /** `str.isspace()` for one character: exactly the characters `str.strip()` removes. */
  predicate IsSpace(c: char)
  {
    || c == ' '
    || '\t' <= c <= '\r'
    || '\U{1C}' <= c <= '\U{1F}'
    || c == '\U{85}'
    || c == '\U{A0}'
    || c == '\U{1680}'
    || '\U{2000}' <= c <= '\U{200A}'
    || c == '\U{2028}'
    || c == '\U{2029}'
    || c == '\U{202F}'
    || c == '\U{205F}'
    || c == '\U{3000}'
  }

  predicate AllSpace(s: string)
  {
    forall i :: 0 <= i < |s| ==> IsSpace(s[i])
  }

  /** A string `strip()` leaves as it is: empty, or not starting or ending with whitespace. */
  predicate Trimmed(s: string)
  {
    s == [] || (!IsSpace(s[0]) && !IsSpace(s[|s| - 1]))
  }

  /** `s.lstrip()`. */
  function TrimLeft(s: string): string
  {
    if s != [] && IsSpace(s[0]) then TrimLeft(s[1..]) else s
  }

  /** `s.rstrip()`. */
  function TrimRight(s: string): string
  {
    if s != [] && IsSpace(s[|s| - 1]) then TrimRight(s[..|s| - 1]) else s
  }

  /** `s.strip()`: `s` without its leading and trailing whitespace. */
  function Strip(s: string): string
  {
    TrimRight(TrimLeft(s))
  }

  /** `lstrip` drops a whitespace prefix and stops at the first other character. */
  lemma {:induction false} TrimLeftShape(s: string)
    ensures |TrimLeft(s)| <= |s|
    ensures TrimLeft(s) == s[|s| - |TrimLeft(s)|..]
    ensures AllSpace(s[..|s| - |TrimLeft(s)|])
    ensures TrimLeft(s) == [] || !IsSpace(TrimLeft(s)[0])
  {
    if s != [] && IsSpace(s[0]) {
      TrimLeftShape(s[1..]);
      var k := |s| - |TrimLeft(s)|;
      assert s[..k] == [s[0]] + s[1..][..k - 1];
    }
  }

  /** `rstrip` drops a whitespace suffix and stops at the last other character. */
  lemma {:induction false} TrimRightShape(s: string)
    ensures |TrimRight(s)| <= |s|
    ensures TrimRight(s) == s[..|TrimRight(s)|]
    ensures AllSpace(s[|TrimRight(s)|..])
    ensures TrimRight(s) == [] || !IsSpace(TrimRight(s)[|TrimRight(s)| - 1])
  {
    if s != [] && IsSpace(s[|s| - 1]) {
      var n := |s| - 1;
      TrimRightShape(s[..n]);
      var k := |TrimRight(s)|;
      assert s[k..] == s[..n][k..] + [s[n]];
    }
  }

  /**
   * What `strip` returns: a piece of `s` surrounded by whitespace only, that
   * neither starts nor ends with whitespace. It is empty exactly when `s` is all
   * whitespace, and a string without surrounding whitespace is left as it is.
   */
  lemma StripShape(s: string)
    ensures Trimmed(Strip(s))
    ensures Strip(s) == [] <==> AllSpace(s)
    ensures Trimmed(s) ==> Strip(s) == s
    ensures exists i :: OccursAt(s, Strip(s), i) && AllSpace(s[..i]) && AllSpace(s[i + |Strip(s)|..])
  {
    var t := TrimLeft(s);
    TrimLeftShape(s);
    TrimRightShape(t);
    var r := Strip(s);
    var i := |s| - |t|;
    assert s[i..i + |r|] == r;
    assert OccursAt(s, r, i);
    assert s[i + |r|..] == t[|r|..];
    if r == [] {
      assert forall j :: 0 <= j < |s| ==> IsSpace(s[j]) by {
        forall j | 0 <= j < |s|
          ensures IsSpace(s[j])
        {
          assert s[j] == s[..i][j];
        }
      }
    }
  }

  function LowerChar(c: char): char
  {
    if 'A' <= c <= 'Z' then (c as int + 32) as char else c
  }

  /** `s.lower()`, restricted to the ASCII letters. */
  function Lower(s: string): (r: string)
    ensures |r| == |s|
    ensures forall i :: 0 <= i < |s| ==> r[i] == LowerChar(s[i])
  {
    if s == [] then [] else [LowerChar(s[0])] + Lower(s[1..])
  }

  lemma LowerCharKeepsSpace(c: char)
    ensures IsSpace(LowerChar(c)) <==> IsSpace(c)
    ensures 'A' <= c <= 'Z' ==> 'a' <= LowerChar(c) <= 'z'
  {
  }

  /** Lowering neither creates nor removes whitespace, and lowering twice changes nothing. */
  lemma {:induction false} LowerKeepsShape(s: string)
    ensures Trimmed(s) ==> Trimmed(Lower(s))
    ensures Lower(Lower(s)) == Lower(s)
  {
    var r := Lower(s);
    if s != [] {
      LowerCharKeepsSpace(s[0]);
      LowerCharKeepsSpace(s[|s| - 1]);
    }
    forall i | 0 <= i < |s|
      ensures Lower(r)[i] == r[i]
    {
      LowerCharKeepsSpace(s[i]);
    }
  }

  /**
   * `s.strip().lower()`: the form in which the generation history and the
   * vocabulary topic key keep a word.
   */
  function Normalise(s: string): string
  {
    Lower(Strip(s))
  }

  /**
   * A normalised word has no surrounding whitespace and no upper-case ASCII
   * letter; it is empty exactly when the word is all whitespace.
   */
  lemma NormaliseShape(s: string)
    ensures Trimmed(Normalise(s))
    ensures Normalise(s) == [] <==> AllSpace(s)
    ensures forall i :: 0 <= i < |Normalise(s)| ==> !('A' <= Normalise(s)[i] <= 'Z')
  {
    StripShape(s);
    LowerKeepsShape(Strip(s));
  }

  /** Normalising twice changes nothing, so case and whitespace variants of a word collide. */
  lemma NormaliseIdempotent(s: string)
    ensures Normalise(Normalise(s)) == Normalise(s)
  {
    var t := Strip(s);
    StripShape(s);
    LowerKeepsShape(t);
    StripShape(Lower(t));
  }

  /** The order Python's `sorted` puts strings in: lexicographic by code point, a prefix first. */
  predicate Less(a: string, b: string)
  {
    if a == [] then b != []
    else if b == [] then false
    else if a[0] != b[0] then a[0] < b[0]
    else Less(a[1..], b[1..])
  }

  lemma {:induction false} LessIrreflexive(a: string)
    ensures !Less(a, a)
  {
    if a != [] {
      LessIrreflexive(a[1..]);
    }
  }

  lemma {:induction false} LessAsymmetric(a: string, b: string)
    ensures !(Less(a, b) && Less(b, a))
  {
    if a != [] && b != [] && a[0] == b[0] {
      LessAsymmetric(a[1..], b[1..]);
    }
  }

  lemma {:induction false} LessTransitive(a: string, b: string, c: string)
    requires Less(a, b) && Less(b, c)
    ensures Less(a, c)
  {
    if a != [] && a[0] == b[0] && b[0] == c[0] {
      LessTransitive(a[1..], b[1..], c[1..]);
    }
  }

  lemma {:induction false} LessTotal(a: string, b: string)
    ensures a == b || Less(a, b) || Less(b, a)
  {
    if a != [] && b != [] && a[0] == b[0] {
      LessTotal(a[1..], b[1..]);
      if a[1..] == b[1..] {
        assert a == [a[0]] + a[1..] && b == [b[0]] + b[1..];
      }
    }
  }

  /** The empty string comes before every other string and nothing comes before it. */
  lemma EmptyIsLeast(a: string)
    ensures !Less(a, "")
    ensures a != "" ==> Less("", a)
  {
  }

  /** `b` occurs in `s` at some position. */
  ghost predicate Contains(s: string, b: string)
  {
    exists i :: OccursAt(s, b, i)
  }

  /** `b` occurs in `s` starting at index `i`. */
  predicate OccursAt(s: string, b: string, i: int)
  {
    0 <= i <= |s| - |b| && s[i..i + |b|] == b
  }

  /** The summed length of the parts. */
  function TotalLength(parts: seq<string>): nat
  {
    if parts == [] then 0 else |parts[0]| + TotalLength(parts[1..])
  }

  /** Where part `k` starts in `sep.join(parts)`: each part before it is followed by `sep`. */
  function Offset(parts: seq<string>, sep: string, k: nat): nat
    requires k <= |parts|
  {
    if k == 0 then 0 else |parts[0]| + |sep| + Offset(parts[1..], sep, k - 1)
  }

  /** An occurrence in `s` is an occurrence in `a + s`, shifted by `|a|`. */
  lemma OccursAfter(a: string, s: string, b: string, i: int)
    requires OccursAt(s, b, i)
    ensures OccursAt(a + s, b, |a| + i)
  {
    assert (a + s)[|a| + i..|a| + i + |b|] == s[i..i + |b|];
  }

  /**
   * `sep.join(parts)`: the parts in order, `sep` between each two of them, and
   * nothing else.
   */
  function Join(parts: seq<string>, sep: string): (r: string)
    ensures parts == [] ==> r == ""
    ensures parts != [] ==> |r| == TotalLength(parts) + (|parts| - 1) * |sep|
    ensures forall k :: 0 <= k < |parts| ==> OccursAt(r, parts[k], Offset(parts, sep, k))
    ensures forall k :: 0 <= k < |parts| - 1 ==> OccursAt(r, sep, Offset(parts, sep, k) + |parts[k]|)
  {
    if parts == [] then ""
    else if |parts| == 1 then
      assert OccursAt(parts[0], parts[0], 0);
      parts[0]
    else
      var rest := Join(parts[1..], sep);
      JoinConsLayout(parts, sep, rest);
      parts[0] + sep + rest
  }

  /** One more separator: `(n + 1) * s == s + n * s`. */
  lemma SeparatorsStep(n: int, s: int)
    ensures (n + 1) * s == s + n * s
  {
  }

  /** Prefixing the first part and `sep` to the join of the other parts gives the join's layout. */
  lemma JoinConsLayout(parts: seq<string>, sep: string, rest: string)
    requires |parts| >= 2
    requires |rest| == TotalLength(parts[1..]) + (|parts| - 2) * |sep|
    requires forall k :: 0 <= k < |parts| - 1 ==> OccursAt(rest, parts[1..][k], Offset(parts[1..], sep, k))
    requires forall k :: 0 <= k < |parts| - 2 ==> OccursAt(rest, sep, Offset(parts[1..], sep, k) + |parts[1..][k]|)
    ensures var r := parts[0] + sep + rest;
      && |r| == TotalLength(parts) + (|parts| - 1) * |sep|
      && (forall k :: 0 <= k < |parts| ==> OccursAt(r, parts[k], Offset(parts, sep, k)))
      && (forall k :: 0 <= k < |parts| - 1 ==> OccursAt(r, sep, Offset(parts, sep, k) + |parts[k]|))
  {
    var head := parts[0] + sep;
    var r := head + rest;
    assert parts[0] + sep + rest == r;
    SeparatorsStep(|parts| - 2, |sep|);
    PartsAfterHead(parts, sep, rest);
    SeparatorsAfterHead(parts, sep, rest);
  }

  /** Each part keeps its place, shifted past the first part and `sep`. */
  lemma PartsAfterHead(parts: seq<string>, sep: string, rest: string)
    requires |parts| >= 2
    requires forall k :: 0 <= k < |parts| - 1 ==> OccursAt(rest, parts[1..][k], Offset(parts[1..], sep, k))
    ensures forall k :: 0 <= k < |parts| ==> OccursAt(parts[0] + sep + rest, parts[k], Offset(parts, sep, k))
  {
    var head := parts[0] + sep;
    var r := head + rest;
    assert OccursAt(r, parts[0], 0) by {
      assert r[..|parts[0]|] == parts[0];
    }
    forall k | 1 <= k < |parts|
      ensures OccursAt(r, parts[k], Offset(parts, sep, k))
    {
      assert parts[k] == parts[1..][k - 1];
      OccursAfter(head, rest, parts[k], Offset(parts[1..], sep, k - 1));
    }
  }

  /** Each separator keeps its place, shifted past the first part and `sep`. */
  lemma SeparatorsAfterHead(parts: seq<string>, sep: string, rest: string)
    requires |parts| >= 2
    requires forall k :: 0 <= k < |parts| - 2 ==> OccursAt(rest, sep, Offset(parts[1..], sep, k) + |parts[1..][k]|)
    ensures forall k :: 0 <= k < |parts| - 1 ==> OccursAt(parts[0] + sep + rest, sep, Offset(parts, sep, k) + |parts[k]|)
  {
    var head := parts[0] + sep;
    var r := head + rest;
    assert OccursAt(r, sep, |parts[0]|) by {
      assert r[|parts[0]|..|head|] == sep;
    }
    forall k | 1 <= k < |parts| - 1
      ensures OccursAt(r, sep, Offset(parts, sep, k) + |parts[k]|)
    {
      assert parts[k] == parts[1..][k - 1];
      OccursAfter(head, rest, sep, Offset(parts[1..], sep, k - 1) + |parts[1..][k - 1]|);
    }
  }

  /**
   * The layout `Join` ensures pins the string down: a string with the parts at
   * their offsets, `sep` between them and the joined length is `sep.join(parts)`.
   */
  lemma {:induction false} JoinLayoutUnique(parts: seq<string>, sep: string, s: string)
    requires parts != []
    requires |s| == TotalLength(parts) + (|parts| - 1) * |sep|
    requires forall k :: 0 <= k < |parts| ==> OccursAt(s, parts[k], Offset(parts, sep, k))
    requires forall k :: 0 <= k < |parts| - 1 ==> OccursAt(s, sep, Offset(parts, sep, k) + |parts[k]|)
    ensures s == Join(parts, sep)
  {
    assert OccursAt(s, parts[0], 0);
    if |parts| == 1 {
      assert s == s[0..|parts[0]|];
    } else {
      var off := |parts[0]| + |sep|;
      assert OccursAt(s, sep, |parts[0]|);
      var t := s[off..];
      SeparatorsStep(|parts| - 2, |sep|);
      forall k | 0 <= k < |parts| - 1
        ensures OccursAt(t, parts[1..][k], Offset(parts[1..], sep, k))
      {
        PartInSuffix(parts, sep, s, k);
      }
      forall k | 0 <= k < |parts| - 2
        ensures OccursAt(t, sep, Offset(parts[1..], sep, k) + |parts[1..][k]|)
      {
        SeparatorInSuffix(parts, sep, s, k);
      }
      JoinLayoutUnique(parts[1..], sep, t);
      JoinOfPieces(parts, sep, s);
    }
  }

  /** A string made of the first part, `sep` and the join of the other parts is the join. */
  lemma JoinOfPieces(parts: seq<string>, sep: string, s: string)
    requires |parts| >= 2 && OccursAt(s, parts[0], 0) && OccursAt(s, sep, |parts[0]|)
    requires s[|parts[0]| + |sep|..] == Join(parts[1..], sep)
    ensures s == Join(parts, sep)
  {
    var n := |parts[0]|;
    assert s == s[0..n] + s[n..n + |sep|] + s[n + |sep|..];
  }

  /** An occurrence at or after `off` is an occurrence in `s[off..]`, shifted back by `off`. */
  lemma OccursInSuffix(s: string, b: string, off: nat, i: nat)
    requires off <= |s| && OccursAt(s, b, off + i)
    ensures OccursAt(s[off..], b, i)
  {
    assert s[off..][i..i + |b|] == s[off + i..off + i + |b|];
  }

  /** Past the first part and `sep`, part `k + 1` sits at offset `k` of the rest. */
  lemma PartInSuffix(parts: seq<string>, sep: string, s: string, k: nat)
    requires k + 1 < |parts| && |parts[0]| + |sep| <= |s|
    requires OccursAt(s, parts[k + 1], Offset(parts, sep, k + 1))
    ensures OccursAt(s[|parts[0]| + |sep|..], parts[1..][k], Offset(parts[1..], sep, k))
  {
    assert parts[1..][k] == parts[k + 1];
    OccursInSuffix(s, parts[1..][k], |parts[0]| + |sep|, Offset(parts[1..], sep, k));
  }

  /** Past the first part and `sep`, the separator after part `k + 1` sits after part `k` of the rest. */
  lemma SeparatorInSuffix(parts: seq<string>, sep: string, s: string, k: nat)
    requires k + 1 < |parts| && |parts[0]| + |sep| <= |s|
    requires OccursAt(s, sep, Offset(parts, sep, k + 1) + |parts[k + 1]|)
    ensures OccursAt(s[|parts[0]| + |sep|..], sep, Offset(parts[1..], sep, k) + |parts[1..][k]|)
  {
    assert parts[1..][k] == parts[k + 1];
    OccursInSuffix(s, sep, |parts[0]| + |sep|, Offset(parts[1..], sep, k) + |parts[1..][k]|);
  }
}
