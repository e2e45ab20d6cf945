/** The throttle sees every built sentence by the type it was built with: src/nmea0183.c, src/daemon.c. */
module SentenceKind {
  import opened NmeaSpec
  import opened ThrottleSpec

  ghost predicate NoStop(s: string) { forall i | 0 <= i < |s| :: !AddressStop(s[i]) }

  lemma {:induction false} AddressEndsAt(s: string, i: nat, e: nat)
    requires i <= e < |s| && AddressStop(s[e]) && forall k | i <= k < e :: !AddressStop(s[k])
    ensures AddressEnd(s, i) == e
    decreases e - i
  {
    if i < e {
      AddressEndsAt(s, i + 1, e);
    }
  }

  lemma {:induction false} FieldsOpen(fs: seq<string>)
    ensures FieldsText(fs) == "" || FieldsText(fs)[0] == ','
  {
    if fs != [] {
      FieldsOpen(fs[..|fs| - 1]);
    }
  }

  /** The type of a built sentence, with fields or without, is the type it was begun with:
      never a piece of its fields or of its checksum. */
  lemma {:induction false} BuiltKind(talker: string, kind: string, fs: seq<string>)
    requires |kind| == 3 && NoStop(kind) && NoStop(talker) && Sentence(talker, kind, fs).Some?
    ensures ThrottleSpec.KindOf(Sentence(talker, kind, fs).value) == kind
  {
    hide Check, AddressEnd, FieldsText;
    FieldsOpen(fs);
    var t := Talker(talker);
    var tail := FieldsText(fs) + Trailer(Check(Body(talker, kind, fs)));
    var s := Sentence(talker, kind, fs).value;
    assert s == "$" + t + kind + tail;
    var e := 1 + |t| + 3;
    assert s[e] == tail[0];
    assert forall k | 1 <= k < e :: s[k] == if k < 1 + |t| then talker[k - 1] else kind[k - 1 - |t|];
    AddressEndsAt(s, 1, e);
    assert s[e - 3..e] == kind;
  }
}
