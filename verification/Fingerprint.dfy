/**
 What a finding is keyed by: four fields joined with `|` and hashed.

 The hash itself is taken to be injective, so two findings share a row exactly when their joined
 payloads are equal, which those of two different ones can be. Kinds and target types come from fixed
 lists without pipes; target ids and root-cause tokens can be anything.
 */
module Fingerprint {

  datatype Identity = Identity(kind: string, targetType: string, targetId: string, rootCause: string)

  function Payload(id: Identity): string {
    id.kind + "|" + id.targetType + "|" + id.targetId + "|" + id.rootCause
  }

  /** The fingerprint: the hash of the payload, injective on payloads. The table is keyed by it. */
  datatype Key = Sha256(payload: string)

  function KeyOf(id: Identity): Key {
    Sha256(Payload(id))
  }

  /** The same text with the dividing pipe in another place: `b`'s id swallows the start of `a`'s token. */
  ghost predicate Shifted(a: Identity, b: Identity) {
    && a.kind == b.kind && a.targetType == b.targetType
    && exists mid :: b.targetId == a.targetId + "|" + mid && a.rootCause == mid + "|" + b.rootCause
  }

  /** The text before the first pipe is determined by the whole. */
  lemma {:induction false} FirstPipe(a: string, restA: string, b: string, restB: string)
    requires '|' !in a && '|' !in b
    requires a + "|" + restA == b + "|" + restB
    ensures a == b && restA == restB
  {
    var s, t := a + "|" + restA, b + "|" + restB;
    assert s[|a|] == '|' && t[|b|] == '|';
    assert |a| == |b|;
    assert a == s[..|a|] && b == t[..|a|];
    assert restA == s[|a| + 1..] && restB == t[|a| + 1..];
  }

  lemma {:induction false} SplitAt(x: string, y: string, u: string, v: string)
    requires x + "|" + y == u + "|" + v && |x| < |u|
    ensures exists mid :: u == x + "|" + mid && y == mid + "|" + v
  {
    var s := x + "|" + y;
    var mid := u[|x| + 1..];
    assert u == s[..|u|] && x == s[..|x|] && s[|x|] == '|';
    assert u == x + "|" + mid;
    assert y == s[|x| + 1..] && v == s[|u| + 1..] && s[|u|] == '|';
    assert y == mid + "|" + v;
  }

  /**
   Two different identities share a fingerprint exactly when a pipe inside an id or a token can be read
   as the divider.
   */
  lemma {:induction false} CollideIffShifted(a: Identity, b: Identity)
    requires '|' !in a.kind && '|' !in b.kind && '|' !in a.targetType && '|' !in b.targetType
    ensures a != b && KeyOf(a) == KeyOf(b) <==> Shifted(a, b) || Shifted(b, a)
  {
    if Payload(a) == Payload(b) {
      var restA, restB := a.targetId + "|" + a.rootCause, b.targetId + "|" + b.rootCause;
      assert Payload(a) == a.kind + "|" + (a.targetType + "|" + restA);
      assert Payload(b) == b.kind + "|" + (b.targetType + "|" + restB);
      FirstPipe(a.kind, a.targetType + "|" + restA, b.kind, b.targetType + "|" + restB);
      FirstPipe(a.targetType, restA, b.targetType, restB);
      if |a.targetId| < |b.targetId| {
        SplitAt(a.targetId, a.rootCause, b.targetId, b.rootCause);
      } else if |b.targetId| < |a.targetId| {
        SplitAt(b.targetId, b.rootCause, a.targetId, a.rootCause);
      } else {
        assert a.targetId == restA[..|a.targetId|] && b.targetId == restB[..|a.targetId|];
        assert a.rootCause == restA[|a.targetId| + 1..] && b.rootCause == restB[|a.targetId| + 1..];
      }
    }
    ShiftedCollides(a, b);
    ShiftedCollides(b, a);
  }

  lemma {:induction false} ShiftedCollides(a: Identity, b: Identity)
    ensures Shifted(a, b) ==> a != b && KeyOf(a) == KeyOf(b)
  {
    if Shifted(a, b) {
      var mid :| b.targetId == a.targetId + "|" + mid && a.rootCause == mid + "|" + b.rootCause;
      assert |b.targetId| > |a.targetId|;
      var head := a.kind + "|" + a.targetType + "|" + a.targetId + "|";
      assert Payload(a) == head + mid + "|" + b.rootCause;
      assert Payload(b) == head + mid + "|" + b.rootCause;
    }
  }

  /** So colons and slashes are harmless, and one side free of pipes, ids or tokens, is enough. */
  lemma {:induction false} PayloadInjective(a: Identity, b: Identity)
    requires '|' !in a.kind && '|' !in b.kind && '|' !in a.targetType && '|' !in b.targetType
    requires ('|' !in a.targetId && '|' !in b.targetId) || ('|' !in a.rootCause && '|' !in b.rootCause)
    requires KeyOf(a) == KeyOf(b)
    ensures a == b
  {
    CollideIffShifted(a, b);
    NotShifted(a, b);
    NotShifted(b, a);
  }

  lemma {:induction false} NotShifted(a: Identity, b: Identity)
    requires '|' !in b.targetId || '|' !in a.rootCause
    ensures !Shifted(a, b)
  {
    forall mid ensures '|' in a.targetId + "|" + mid && '|' in mid + "|" + b.rootCause {
      assert (a.targetId + "|" + mid)[|a.targetId|] == '|';
      assert (mid + "|" + b.rootCause)[|mid|] == '|';
    }
  }
}
