/** C-string helpers shared by the text modules: scanning for a class of
    characters, trimming, bounded copies, and the split of a text into lines. */
module CText {

  datatype Option<+T> = None | Some(value: T)

  /** The classes of characters that the scanning loops stop at. */
  datatype Stop = Newline | NonBlank | CommentStart | Equals | CloseBracket {
    predicate At(c: char) {
      match this
      case Newline => c == '\n'
      case NonBlank => !IsBlank(c)
      case CommentStart => c == ';' || c == '#'
      case Equals => c == '='
      case CloseBracket => c == ']'
    }
  }

  function Lower(c: char): char { if 'A' <= c <= 'Z' then (c as int + 32) as char else c }

  /** The same letter in either case, or the same character. */
  predicate SameLetter(c: char, d: char) {
    c == d || ('a' <= c <= 'z' && d as int + 32 == c as int) || ('a' <= d <= 'z' && c as int + 32 == d as int)
  }

  predicate EqualNoCase(a: string, b: string) {
    |a| == |b| && forall i | 0 <= i < |a| :: SameLetter(a[i], b[i])
  }

  /** The text starts with the other one, in any case of letters. */
  predicate StartsNoCase(s: string, p: string) {
    |p| <= |s| && forall i | 0 <= i < |p| :: SameLetter(p[i], s[i])
  }

  lemma LowerSame(c: char, d: char)
    ensures Lower(c) == Lower(d) <==> SameLetter(c, d)
  {
  }

  predicate IsBlank(c: char) { c == ' ' || c == '\t' }
  predicate IsTailBlank(c: char) { c == ' ' || c == '\t' || c == '\r' }

  /** The first index of [b, e) that the scan stops at, or e. */
  function First(s: string, b: nat, e: nat, stop: Stop): (r: nat)
    requires b <= e <= |s|
    ensures b <= r <= e
    ensures forall i | b <= i < r :: !stop.At(s[i])
    ensures r < e ==> stop.At(s[r])
    decreases e - b
  {
    if b == e || stop.At(s[b]) then b else First(s, b + 1, e, stop)
  }

  /** The three properties above determine the index. */
  lemma {:induction false} FirstIs(s: string, b: nat, e: nat, stop: Stop, r: nat)
    requires b <= r <= e <= |s|
    requires forall i | b <= i < r :: !stop.At(s[i])
    requires r < e ==> stop.At(s[r])
    ensures First(s, b, e, stop) == r
  {
    if First(s, b, e, stop) != r {
      assert false;
    }
  }

  /** Where [b, e) ends once its trailing blanks are dropped. */
  function TailEnd(s: string, b: nat, e: nat): (r: nat)
    requires b <= e <= |s|
    ensures b <= r <= e
    ensures r > b ==> !IsTailBlank(s[r - 1])
    ensures forall i | r <= i < e :: IsTailBlank(s[i])
    decreases e
  {
    if b == e || !IsTailBlank(s[e - 1]) then e else TailEnd(s, b, e - 1)
  }

  /** [b, e) without its leading and trailing blanks. */
  function Trim(s: string, b: nat, e: nat): (r: string)
    requires b <= e <= |s|
    ensures |r| <= e - b
  {
    var lo := First(s, b, e, NonBlank);
    s[lo..TailEnd(s, lo, e)]
  }

  predicate Trimmed(s: string) {
    s == "" || (!IsBlank(s[0]) && !IsTailBlank(s[|s| - 1]))
  }

  lemma {:induction false} TrimIsTrimmed(s: string, b: nat, e: nat)
    requires b <= e <= |s|
    ensures Trimmed(Trim(s, b, e))
  {
    var lo := First(s, b, e, NonBlank);
    var hi := TailEnd(s, lo, e);
    if lo < hi {
      assert Trim(s, b, e)[0] == s[lo];
      assert Trim(s, b, e)[hi - lo - 1] == s[hi - 1];
    }
  }

  /** Blanks around a trimmed text are dropped, and only those. */
  lemma {:induction false} TrimIs(s: string, b: nat, e: nat, lo: nat, hi: nat)
    requires b <= lo <= hi <= e <= |s|
    requires forall i | b <= i < lo :: IsBlank(s[i])
    requires forall i | hi <= i < e :: IsTailBlank(s[i])
    requires Trimmed(s[lo..hi])
    ensures Trim(s, b, e) == s[lo..hi]
  {
    var v := s[lo..hi];
    if lo < hi {
      assert v[0] == s[lo] && v[hi - lo - 1] == s[hi - 1];
      FirstIs(s, b, e, NonBlank, lo);
    }
    var f := First(s, b, e, NonBlank);
    var t := TailEnd(s, f, e);
    if lo == hi {
      if f < t { assert false; }
    } else {
      if t != hi { assert false; }
    }
  }

  /** Trimming depends on the trimmed characters only. */
  lemma {:induction false} TrimSame(s: string, t: string, e: nat)
    requires e <= |s| && e <= |t| && s[..e] == t[..e]
    ensures Trim(s, 0, e) == Trim(t, 0, e)
    ensures First(s, 0, e, NonBlank) == First(t, 0, e, NonBlank)
  {
    assert forall i | 0 <= i < e :: s[i] == s[..e][i] == t[..e][i] == t[i];
    var lo := First(t, 0, e, NonBlank);
    FirstIs(s, 0, e, NonBlank, lo);
    if TailEnd(s, lo, e) != TailEnd(t, lo, e) {
      assert false;
    }
    var hi := TailEnd(t, lo, e);
    assert s[lo..hi] == s[..e][lo..hi] == t[..e][lo..hi] == t[lo..hi];
  }

  /** A copy into a buffer of sz characters, one of them kept for the NUL. */
  function Copy(s: string, sz: nat): (r: string)
    requires sz > 0
    ensures |r| < sz && r <= s
    ensures |s| < sz ==> r == s
    ensures |r| == if |s| < sz then |s| else sz - 1
  {
    if |s| < sz then s else s[..sz - 1]
  }

  /** A bounded copy of a trimmed range is a stretch of it, starting at its first non-blank. */
  lemma {:induction false} CopyTrim(s: string, b: nat, e: nat, sz: nat)
    requires b <= e <= |s| && sz > 0
    ensures var f, k := First(s, b, e, NonBlank), Copy(Trim(s, b, e), sz);
            && f + |k| <= e
            && k == s[f..f + |k|]
            && (forall i | 0 <= i < |k| :: k[i] == s[f + i])
            && (k != "" ==> f < e && !IsBlank(k[0]))
  {
    var f := First(s, b, e, NonBlank);
    var k := Copy(Trim(s, b, e), sz);
    var t := Trim(s, b, e);
    assert k == t[..|k|] == s[f..f + |k|];
  }

  /** The lines of s, without their line feeds; a final line feed opens no further line. */
  function Lines(s: string): (ls: seq<string>)
    decreases |s|
  {
    if s == "" then []
    else
      var e := First(s, 0, |s|, Newline);
      [s[..e]] + Lines(if e < |s| then s[e + 1..] else "")
  }

  /** The text in which every line is closed by a line feed. */
  function Unlines(ls: seq<string>): string {
    if ls == [] then "" else ls[0] + "\n" + Unlines(ls[1..])
  }

  ghost predicate OneLine(l: string) {
    forall i | 0 <= i < |l| :: l[i] != '\n'
  }

  ghost predicate AllOneLine(ls: seq<string>) {
    forall i | 0 <= i < |ls| :: OneLine(ls[i])
  }

  lemma {:induction false} LinesAreOneLine(s: string)
    ensures AllOneLine(Lines(s))
    decreases |s|
  {
    if s != "" {
      var e := First(s, 0, |s|, Newline);
      LinesAreOneLine(if e < |s| then s[e + 1..] else "");
      assert OneLine(s[..e]);
    }
  }

  lemma {:induction false} LinesCons(l: string, t: string)
    requires OneLine(l)
    ensures Lines(l + "\n" + t) == [l] + Lines(t)
  {
    var s := l + "\n" + t;
    assert s[|l|] == '\n';
    FirstIs(s, 0, |s|, Newline, |l|);
    assert s[..|l|] == l;
    assert s[|l| + 1..] == t;
  }

  /** Splitting undoes closing every line with a line feed. */
  lemma {:induction false} LinesUnlines(ls: seq<string>)
    requires AllOneLine(ls)
    ensures Lines(Unlines(ls)) == ls
  {
    if ls != [] {
      assert OneLine(ls[0]);
      TailOneLine(ls);
      LinesUnlines(ls[1..]);
      LinesCons(ls[0], Unlines(ls[1..]));
    }
  }

  lemma {:induction false} TailOneLine(ls: seq<string>)
    requires AllOneLine(ls) && ls != []
    ensures OneLine(ls[0]) && AllOneLine(ls[1..])
  {
    forall i | 0 <= i < |ls[1..]| ensures OneLine(ls[1..][i]) {
      assert ls[1..][i] == ls[i + 1];
    }
  }

  lemma {:induction false} UnlinesAppend(a: seq<string>, b: seq<string>)
    ensures Unlines(a + b) == Unlines(a) + Unlines(b)
  {
    if a == [] {
      assert a + b == b;
    } else {
      UnlinesAppend(a[1..], b);
      assert (a + b)[1..] == a[1..] + b && (a + b)[0] == a[0];
      var h, m, t := a[0] + "\n", Unlines(a[1..]), Unlines(b);
      assert h + (m + t) == (h + m) + t;
    }
  }

  function Concat(parts: seq<string>): string {
    if parts == [] then "" else parts[0] + Concat(parts[1..])
  }

  lemma {:induction false} ConcatSnoc(parts: seq<string>, last: string)
    ensures Concat(parts + [last]) == Concat(parts) + last
  {
    var all := parts + [last];
    if parts == [] {
      assert all[1..] == [] && last + "" == last;
    } else {
      assert all[0] == parts[0] && all[1..] == parts[1..] + [last];
      ConcatSnoc(parts[1..], last);
    }
  }
}
