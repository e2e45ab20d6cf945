/** Which lines are section and key lines, character by character, and which section
    names are one section: src/inimerge.c, the parsing helpers. */
module IniNames {
  import opened CText
  import opened IniText
  import opened IniMergeSpec
  import opened IniLines

  // ----- spellings of a section

  /** The names that the configuration reader takes for one section; the first one is written. */
  const Aliases := [["priority", "priorities", "priorites"], ["rate", "rates"], ["talker", "talkers"], ["sentence", "sentences"]]

  ghost predicate Spells(a: string, c: nat)
    requires c < |Aliases|
  {
    exists i :: 0 <= i < |Aliases[c]| && EqualNoCase(a, Aliases[c][i])
  }

  /** Equal up to the case of letters, or spellings of one of the four classes. */
  ghost predicate SameSection(a: string, b: string) {
    EqualNoCase(a, b) || exists c: nat | c < |Aliases| :: Spells(a, c) && Spells(b, c)
  }

  lemma {:induction false} LowerEqual(a: string, b: string)
    ensures LowerAll(a) == LowerAll(b) <==> EqualNoCase(a, b)
  {
    if |a| == |b| {
      forall i | 0 <= i < |a| ensures Lower(a[i]) == Lower(b[i]) <==> SameLetter(a[i], b[i]) {
        LowerSame(a[i], b[i]);
      }
      if LowerAll(a) == LowerAll(b) {
        assert forall i | 0 <= i < |a| :: LowerAll(a)[i] == LowerAll(b)[i];
      }
    } else {
      assert |LowerAll(a)| != |LowerAll(b)|;
    }
  }

  ghost predicate Small(w: string) { forall i | 0 <= i < |w| :: 'a' <= w[i] <= 'z' }

  lemma {:induction false} SmallEqual(a: string, w: string)
    requires Small(w)
    ensures EqualNoCase(a, w) <==> LowerAll(a) == w
  {
    assert LowerAll(w) == w;
    LowerEqual(a, w);
  }

  lemma AliasesSmall()
    ensures forall c: nat, i: nat | c < |Aliases| && i < |Aliases[c]| :: Small(Aliases[c][i])
    ensures forall c: nat, i: nat, d: nat, j: nat |
              c < |Aliases| && i < |Aliases[c]| && d < |Aliases| && j < |Aliases[d]| && Aliases[c][i] == Aliases[d][j] :: c == d && i == j
  {
  }

  lemma {:induction false} SpellsLower(a: string, c: nat)
    requires c < |Aliases|
    ensures Spells(a, c) <==> LowerAll(a) in Aliases[c]
  {
    AliasesSmall();
    forall i | 0 <= i < |Aliases[c]| ensures EqualNoCase(a, Aliases[c][i]) <==> LowerAll(a) == Aliases[c][i] {
      SmallEqual(a, Aliases[c][i]);
    }
  }

  /** A name that spells a class is taken for its first name, any other one for itself in small letters. */
  lemma {:induction false} CanonicalIs(a: string)
    ensures forall c: nat | c < |Aliases| && Spells(a, c) :: Canonical(a) == Aliases[c][0]
    ensures (forall c: nat | c < |Aliases| :: !Spells(a, c)) ==>
              EqualNoCase(Canonical(a), a) && Canonical(a) == LowerAll(a)
  {
    var l := LowerAll(a);
    SpellsLower(a, 0);
    SpellsLower(a, 1);
    SpellsLower(a, 2);
    SpellsLower(a, 3);
    hide Spells, EqualNoCase, LowerAll;
    if l == "priority" || l == "priorities" || l == "priorites" { assert l in Aliases[0]; }
    if l == "rates" { assert l in Aliases[1]; }
    if l == "talkers" { assert l in Aliases[2]; }
    if l == "sentences" { assert l in Aliases[3]; }
    LowerEqual(l, a);
    assert LowerAll(LowerAll(a)) == LowerAll(a) by { LowerTwice(a); }
  }

  lemma LowerTwice(a: string)
    ensures LowerAll(LowerAll(a)) == LowerAll(a)
  {
  }

  lemma {:induction false} OneClass(a: string, c: nat, d: nat)
    requires c < |Aliases| && d < |Aliases| && Spells(a, c) && Spells(a, d)
    ensures c == d
  {
    SpellsLower(a, c);
    SpellsLower(a, d);
    AliasesSmall();
  }

  lemma {:induction false} FirstSpells(c: nat)
    requires c < |Aliases|
    ensures Spells(Aliases[c][0], c)
  {
    assert EqualNoCase(Aliases[c][0], Aliases[c][0]);
  }

  lemma {:induction false} EqualSpells(a: string, b: string, c: nat)
    requires c < |Aliases| && EqualNoCase(a, b)
    ensures Spells(a, c) == Spells(b, c)
  {
    SpellsLower(a, c);
    SpellsLower(b, c);
    LowerEqual(a, b);
  }

  lemma {:induction false} CanonicalSpells(a: string, c: nat)
    requires c < |Aliases|
    ensures Spells(a, c) == Spells(Canonical(a), c)
    ensures Spells(a, c) ==> Canonical(a) == Aliases[c][0]
  {
    hide Spells, Canonical, EqualNoCase;
    CanonicalIs(a);
    if d: nat :| d < |Aliases| && Spells(a, d) {
      FirstSpells(d);
      if Spells(Canonical(a), c) { OneClass(Canonical(a), c, d); }
    } else {
      EqualSpells(Canonical(a), a, c);
    }
  }

  lemma {:induction false} SameCanonical(a: string, b: string)
    ensures Canonical(a) == Canonical(b) <==> SameSection(a, b)
  {
    hide Spells, Canonical, EqualNoCase;
    forall c: nat | c < |Aliases|
      ensures Spells(a, c) == Spells(Canonical(a), c) && (Spells(a, c) ==> Canonical(a) == Aliases[c][0])
      ensures Spells(b, c) == Spells(Canonical(b), c) && (Spells(b, c) ==> Canonical(b) == Aliases[c][0])
      ensures EqualNoCase(a, b) ==> Spells(a, c) == Spells(b, c)
    {
      CanonicalSpells(a, c);
      CanonicalSpells(b, c);
      if EqualNoCase(a, b) { EqualSpells(a, b, c); }
    }
    CanonicalIs(a);
    CanonicalIs(b);
    LowerEqual(a, b);
  }

  // ----- section lines

  /** The name between the brackets: without blanks around it, and cut to its buffer. */
  function Bare(a: string): string { Copy(Trim(a, 0, |a|), SEC_LEN) }

  lemma {:induction false} BracketsRead(a: string)
    requires Without(a, ']')
    ensures ParseSection("[" + a + "]") == Some(Canonical(Bare(a)))
  {
    hide Canonical, Copy, First, Trim;
    var line := "[" + a + "]";
    FirstIs(line, 0, |line|, NonBlank, 0);
    FirstIs(line, 1, |line|, CloseBracket, 1 + |a|);
    TrimInside(line, a);
  }

  lemma {:induction false} TrimInside(line: string, a: string)
    requires line == "[" + a + "]"
    ensures Trim(line, 1, 1 + |a|) == Trim(a, 0, |a|)
  {
    hide Trim;
    var lo, hi := TrimBounds(a);
    TrimWindow(line, 1, a, lo, hi);
  }

  lemma {:induction false} TrimBounds(a: string) returns (lo: nat, hi: nat)
    ensures lo <= hi <= |a| && a[lo..hi] == Trim(a, 0, |a|) && Trimmed(a[lo..hi])
    ensures forall i | 0 <= i < lo :: IsBlank(a[i])
    ensures forall i | hi <= i < |a| :: IsTailBlank(a[i])
  {
    lo := First(a, 0, |a|, NonBlank);
    hi := TailEnd(a, lo, |a|);
    TrimIsTrimmed(a, 0, |a|);
  }

  /** Trimming a stretch of a line is trimming its text. */
  lemma {:induction false} TrimWindow(line: string, b: nat, s: string, lo: nat, hi: nat)
    requires b + |s| <= |line| && line[b..b + |s|] == s && lo <= hi <= |s| && Trimmed(s[lo..hi])
    requires forall i | 0 <= i < lo :: IsBlank(s[i])
    requires forall i | hi <= i < |s| :: IsTailBlank(s[i])
    ensures Trim(line, b, b + |s|) == s[lo..hi]
  {
    hide Trim;
    assert forall i | b <= i < b + |s| :: line[i] == line[b..b + |s|][i - b] == s[i - b];
    assert line[b + lo..b + hi] == line[b..b + |s|][lo..hi] == s[lo..hi];
    TrimIs(line, b, b + |s|, b + lo, b + hi);
  }

  /** Two names between brackets open the same section exactly when they are equal up to the
      case of letters or spellings of one class. */
  lemma {:induction false} SectionsSame(a: string, b: string)
    requires Without(a, ']') && Without(b, ']')
    ensures ParseSection("[" + a + "]") == ParseSection("[" + b + "]") <==> SameSection(Bare(a), Bare(b))
  {
    hide ParseSection, Canonical, SameSection, Bare;
    BracketsRead(a);
    BracketsRead(b);
    SameCanonical(Bare(a), Bare(b));
  }

  /** No blank around it, and short enough. */
  ghost predicate IsName(a: string) {
    && |a| < 32 && Without(a, ']')
    && (a != "" ==> a[0] !in " \t" && a[|a| - 1] !in " \t\r")
  }

  lemma {:induction false} NameBare(a: string)
    requires IsName(a)
    ensures Bare(a) == a
  {
    assert a[0..|a|] == a;
    TrimIs(a, 0, |a|, 0, |a|);
  }

  /** What a section is called: by the first name of its class, else by its own name in small letters. */
  lemma {:induction false} SectionCalled(a: string)
    requires IsName(a)
    ensures ParseSection("[" + a + "]").Some?
    ensures var n := ParseSection("[" + a + "]").value;
            && SameSection(n, a) && (forall i | 0 <= i < |n| :: !('A' <= n[i] <= 'Z'))
            && (forall c: nat | c < |Aliases| && Spells(a, c) :: n == Aliases[c][0])
  {
    hide ParseSection, Canonical, SameSection, Bare, Spells;
    BracketsRead(a);
    NameBare(a);
    CanonicalIs(a);
    CanonicalIdempotent(a);
    SameCanonical(Canonical(a), a);
    forall c: nat | c < |Aliases| ensures Small(Aliases[c][0]) { AliasesSmall(); }
  }

  ghost predicate AllIn(s: string, cs: string) { forall i | 0 <= i < |s| :: s[i] in cs }

  /** Blanks before the bracket and around the name, and anything behind the bracket, change nothing. */
  lemma {:induction false} SectionLineRead(lead: string, gap: string, name: string, gap2: string, rest: string)
    requires AllIn(lead, " \t") && AllIn(gap, " \t") && AllIn(gap2, " \t\r") && IsName(name)
    ensures KindOf(lead + "[" + gap + name + gap2 + "]" + rest) == KindOf("[" + name + "]")
  {
    hide *;
    var inner := gap + name + gap2;
    var line := lead + "[" + inner + "]" + rest;
    assert lead + "[" + gap + name + gap2 + "]" + rest == line;
    var b := |lead|;
    assert line[b + 1..b + 1 + |inner|] == inner;
    InnerRead(gap, name, gap2);
    NameTrimmed(name);
    TrimWindow(line, b + 1, inner, |gap|, |gap| + |name|);
    BracketAt(line, lead, inner, rest);
    NameWithout(name);
    BracketsRead(name);
    NameBare(name);
    HeaderKind(line, b, |inner|, name);
    HeaderIs("[" + name + "]", Canonical(name));
  }

  lemma {:induction false} HeaderKind(line: string, b: nat, n: nat, name: string)
    requires b + 1 + n < |line| && line[b] == '[' && First(line, 0, |line|, NonBlank) == b
    requires First(line, b + 1, |line|, CloseBracket) == b + 1 + n && Trim(line, b + 1, b + 1 + n) == name && |name| < 32
    ensures KindOf(line) == Header(Canonical(name))
  {
    hide Canonical, First, Trim;
  }

  lemma HeaderIs(line: string, sec: string)
    requires ParseSection(line) == Some(sec)
    ensures KindOf(line) == Header(sec)
  {
  }

  lemma NameWithout(name: string)
    requires IsName(name)
    ensures Without(name, ']') && |name| < 32
  {
  }

  lemma {:induction false} NameTrimmed(name: string)
    requires IsName(name)
    ensures Trimmed(name)
  {
  }

  lemma {:induction false} InnerRead(gap: string, name: string, gap2: string)
    requires AllIn(gap, " \t") && AllIn(gap2, " \t\r") && IsName(name)
    ensures var s := gap + name + gap2;
            && s[|gap|..|gap| + |name|] == name && Lacks(s, "]")
            && (forall i | 0 <= i < |gap| :: IsBlank(s[i]))
            && (forall i | |gap| + |name| <= i < |s| :: IsTailBlank(s[i]))
  {
    var s := gap + name + gap2;
    var hi := |gap| + |name|;
    assert forall i | 0 <= i < |gap| :: s[i] == gap[i];
    assert forall i | |gap| <= i < hi :: s[i] == name[i - |gap|];
    assert forall i | hi <= i < |s| :: s[i] == gap2[i - hi];
  }

  lemma {:induction false} BracketAt(line: string, lead: string, inner: string, rest: string)
    requires line == lead + "[" + inner + "]" + rest && AllIn(lead, " \t") && Lacks(inner, "]")
    ensures var b := |lead|;
            && line[b] == '[' && First(line, 0, |line|, NonBlank) == b
            && First(line, b + 1, |line|, CloseBracket) == b + 1 + |inner|
  {
    var b := |lead|;
    assert forall i | 0 <= i < b :: line[i] == lead[i];
    assert forall i | 0 <= i < |inner| :: line[b + 1 + i] == inner[i];
    FirstIs(line, 0, |line|, NonBlank, b);
    FirstIs(line, b + 1, |line|, CloseBracket, b + 1 + |inner|);
  }

  // ----- key lines

  ghost predicate Lacks(s: string, cs: string) { forall i | 0 <= i < |s| :: s[i] !in cs }

  /** A key: something without blanks around it, without sign, comment or opening bracket at its start. */
  ghost predicate IsKey(key: string) {
    && 0 < |key| < 64 && Lacks(key, "=;#\n") && key[0] !in " \t[" && key[|key| - 1] !in " \t\r"
  }

  ghost predicate IsValue(val: string) {
    && |val| < 256 && Lacks(val, ";#\n")
    && (val != "" ==> val[0] !in " \t" && val[|val| - 1] !in " \t\r")
  }

  ghost predicate IsComment(s: string) { s == "" || s[0] in ";#" }

  /** A key line in any layout reads as its key and its value. */
  lemma {:induction false} KeyLineRead(lead: string, key: string, gap: string, gap2: string, val: string, gap3: string, comment: string)
    requires AllIn(lead, " \t") && IsKey(key) && AllIn(gap, " \t\r") && AllIn(gap2, " \t") && IsValue(val)
    requires AllIn(gap3, " \t\r") && IsComment(comment)
    ensures var line := lead + key + gap + "=" + gap2 + val + gap3 + comment;
            var eq := |lead + key + gap|;
            KindOf(line) == KeyValue(key, eq) && ValueAfter(line, eq) == val
  {
    hide *;
    var pre := lead + key + gap;
    var tail := gap2 + val + gap3;
    var line := pre + "=" + tail + comment;
    assert lead + key + gap + "=" + gap2 + val + gap3 + comment == line;
    PreRead(lead, key, gap);
    TailRead(gap2, val, gap3);
    KeyLineShape(line, pre, tail, comment);
    KeyLineStart(line, lead, key, gap);
    KeyTrimmed(line, lead, key, gap);
    assert line[|pre| + 1..|pre| + 1 + |tail|] == tail;
    ValueTrimmed(line, |pre|, gap2, val, gap3);
    KeyLineKind(line, key, |pre|, val);
  }

  lemma {:induction false} KeyLineKind(line: string, key: string, eq: nat, val: string)
    requires ParseSection(line) == None && eq < CommentAt(line) && First(line, 0, CommentAt(line), Equals) == eq
    requires Copy(Trim(line, 0, eq), KEY_LEN) == key != ""
    requires Copy(Trim(line, eq + 1, CommentAt(line)), VAL_LEN) == val
    ensures KindOf(line) == KeyValue(key, eq) && ValueAfter(line, eq) == val
  {
    hide Trim, Copy, First, CommentAt, ParseSection;
  }

  lemma {:induction false} KeyLineShape(line: string, pre: string, tail: string, comment: string)
    requires line == pre + "=" + tail + comment && Lacks(pre, "=;#") && Lacks(tail, ";#") && IsComment(comment)
    ensures CommentAt(line) == |pre| + 1 + |tail| && First(line, 0, |pre| + 1 + |tail|, Equals) == |pre|
  {
    var eq := |pre|;
    var cm := eq + 1 + |tail|;
    assert forall i | 0 <= i < eq :: line[i] == pre[i];
    forall i | 0 <= i < cm ensures !CommentStart.At(line[i]) {
      assert i > eq ==> line[i] == tail[i - eq - 1];
    }
    CommentIs(line, cm);
    FirstIs(line, 0, cm, Equals, eq);
  }

  lemma {:induction false} KeyLineStart(line: string, lead: string, key: string, gap: string)
    requires AllIn(lead, " \t") && IsKey(key) && lead + key + gap <= line
    ensures ParseSection(line) == None
  {
    hide Canonical, Copy, Trim, First;
    var pre := lead + key + gap;
    assert line[|lead|] == pre[|lead|] == key[0];
    assert forall i | 0 <= i < |lead| :: line[i] == pre[i] == lead[i];
    FirstIs(line, 0, |line|, NonBlank, |lead|);
  }

  lemma {:induction false} CommentIs(line: string, cm: nat)
    requires cm <= |line| && (forall i | 0 <= i < cm :: !CommentStart.At(line[i])) && (cm < |line| ==> CommentStart.At(line[cm]))
    ensures CommentAt(line) == cm
  {
    FirstIs(line, 0, |line|, CommentStart, cm);
  }

  lemma {:induction false} PreRead(lead: string, key: string, gap: string)
    requires AllIn(lead, " \t") && IsKey(key) && AllIn(gap, " \t\r")
    ensures var pre := lead + key + gap;
            && Lacks(pre, "=;#") && pre[|lead|] == key[0] && forall i | 0 <= i < |lead| :: IsBlank(pre[i])
  {
    var pre := lead + key + gap;
    forall i | 0 <= i < |pre| ensures pre[i] !in "=;#" {
      assert i < |lead| ==> pre[i] == lead[i];
      assert |lead| <= i < |lead| + |key| ==> pre[i] == key[i - |lead|];
      assert |lead| + |key| <= i ==> pre[i] == gap[i - |lead| - |key|];
    }
  }

  lemma {:induction false} TailRead(gap: string, val: string, gap2: string)
    requires AllIn(gap, " \t") && IsValue(val) && AllIn(gap2, " \t\r")
    ensures Lacks(gap + val + gap2, ";#")
  {
    var s := gap + val + gap2;
    forall i | 0 <= i < |s| ensures s[i] !in ";#" {
      assert i < |gap| ==> s[i] == gap[i];
      assert |gap| <= i < |gap| + |val| ==> s[i] == val[i - |gap|];
      assert |gap| + |val| <= i ==> s[i] == gap2[i - |gap| - |val|];
    }
  }

  lemma {:induction false} KeyTrimmed(line: string, lead: string, key: string, gap: string)
    requires AllIn(lead, " \t") && IsKey(key) && AllIn(gap, " \t\r") && lead + key + gap <= line
    ensures Copy(Trim(line, 0, |lead + key + gap|), KEY_LEN) == key != ""
  {
    var pre := lead + key + gap;
    assert forall i | 0 <= i < |pre| :: line[i] == pre[i];
    assert line[|lead|..|lead| + |key|] == pre[|lead|..|lead| + |key|] == key;
    TrimIs(line, 0, |pre|, |lead|, |lead| + |key|);
  }

  lemma {:induction false} ValueTrimmed(line: string, eq: nat, gap: string, val: string, gap2: string)
    requires AllIn(gap, " \t") && IsValue(val) && AllIn(gap2, " \t\r")
    requires eq + 1 + |gap + val + gap2| <= |line| && line[eq + 1..eq + 1 + |gap + val + gap2|] == gap + val + gap2
    ensures Copy(Trim(line, eq + 1, eq + 1 + |gap + val + gap2|), VAL_LEN) == val
  {
    hide Trim;
    var s := gap + val + gap2;
    var lo, hi := |gap|, |gap| + |val|;
    assert s[lo..hi] == val;
    forall i | 0 <= i < lo ensures IsBlank(s[i]) { assert s[i] == gap[i]; }
    forall i | hi <= i < |s| ensures IsTailBlank(s[i]) { assert s[i] == gap2[i - hi]; }
    TrimWindow(line, eq + 1, s, lo, hi);
  }

  /** A blank line, and one that starts with a comment, are neither. */
  lemma {:induction false} OtherRead(lead: string, comment: string)
    requires AllIn(lead, " \t") && IsComment(comment)
    ensures KindOf(lead + comment) == Other
  {
    hide Canonical, Copy, First, Trim;
    var line := lead + comment;
    assert forall i | 0 <= i < |lead| :: line[i] == lead[i];
    FirstIs(line, 0, |line|, NonBlank, |lead|);
    FirstIs(line, 0, |line|, CommentStart, |lead|);
    FirstIs(line, 0, |lead|, Equals, |lead|);
  }
}
