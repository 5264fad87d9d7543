/**
 Secret references: one resolver, a resolve-once cache, and the memory that redaction works from.

 The back ends (`age`, `sops`, the OS keyring, the file system) are one partial map from references
 to values, which may differ at every call.
 */
module Secrets {
  import opened Wrappers
  import opened Redaction

  const MIN_REDACT_LEN := 4
  const SCHEMES := ["env", "file", "keyring"]

  datatype SecretError =
    | EnvUnset(name: string)
    | EnvChained(name: string)
    | BackendFailed(reference: string)

  /** What lies outside the process at the time of a call. */
  datatype World = World(environ: map<string, string>, backend: map<string, string>)

  /** Python's `value.partition(":")`: what precedes the first colon, whether there is one, what follows. */
  function Partition(value: string): (r: (string, bool, string))
    ensures ':' !in r.0
    ensures if r.1 then value == r.0 + ":" + r.2 else value == r.0 && r.2 == ""
  {
    if value == "" then ("", false, "")
    else if value[0] == ':' then ("", true, value[1..])
    else
      var (head, found, rest) := Partition(value[1..]);
      ([value[0]] + head, found, rest)
  }

  predicate IsReference(value: string) {
    var (scheme, found, rest) := Partition(value);
    found && scheme in SCHEMES && rest != ""
  }

  function ResolveEnv(name: string, environ: map<string, string>): Result<string, SecretError> {
    if name !in environ || environ[name] == "" then Failure(EnvUnset(name))
    else if IsReference(environ[name]) then Failure(EnvChained(name))
    else Success(environ[name])
  }

  function Lookup(reference: string, world: World): Result<string, SecretError> {
    var (scheme, _, rest) := Partition(reference);
    if scheme == "env" then ResolveEnv(rest, world.environ)
    else if reference in world.backend then Success(world.backend[reference])
    else Failure(BackendFailed(reference))
  }

  /** A reference is one of three schemes, a colon and something after it. */
  lemma {:induction false} ReferenceForm(scheme: string, rest: string)
    requires ':' !in scheme
    ensures Partition(scheme + ":" + rest) == (scheme, true, rest)
    ensures IsReference(scheme + ":" + rest) <==>
          (scheme == "env" || scheme == "file" || scheme == "keyring") && rest != ""
    ensures !IsReference(scheme)
  {
    var whole := scheme + ":" + rest;
    if scheme == "" {
      assert whole[1..] == rest;
    } else {
      ReferenceForm(scheme[1..], rest);
      assert whole[1..] == scheme[1..] + ":" + rest;
      assert scheme == [scheme[0]] + scheme[1..];
    }
  }

  /** An `env:` reference reads the variable it names, which must be set, not empty and no reference itself. */
  lemma {:induction false} EnvReferenceReads(name: string, world: World)
    requires name != ""
    ensures var r := Lookup("env:" + name, world);
            && (r.Success? <==> name in world.environ && world.environ[name] != "" && !IsReference(world.environ[name]))
            && (r.Success? ==> r.value == world.environ[name])
            && (r == Failure(EnvChained(name)) <==> name in world.environ && IsReference(world.environ[name]))
            && (r == Failure(EnvUnset(name)) <==> name !in world.environ || world.environ[name] == "")
  {
    ReferenceForm("env", name);
    assert "env:" + name == "env" + ":" + name;
  }

  /** Any other reference is what its back end says it is. */
  lemma {:induction false} OtherReferencesAskTheirBackend(scheme: string, rest: string, world: World)
    requires scheme == "file" || scheme == "keyring"
    ensures var reference := scheme + ":" + rest;
            Lookup(reference, world) ==
            if reference in world.backend then Success(world.backend[reference]) else Failure(BackendFailed(reference))
  {
    ReferenceForm(scheme, rest);
  }

  // ---------------------------------------------------------------- the memory, as a value

  datatype Memory = Memory(cache: map<string, string>, known: set<string>) {

    function Remember(value: string): Memory {
      if |value| >= MIN_REDACT_LEN then this.(known := known + {value}) else this
    }

    /** Whether this call has to ask outside the process. */
    predicate Asks(value: Option<string>) {
      value.Some? && IsReference(value.value) && value.value !in cache
    }

    function Reply(value: Option<string>, world: World): Result<Option<string>, SecretError> {
      if value == None || !IsReference(value.value) then Success(value)
      else if value.value in cache then Success(Some(cache[value.value]))
      else match Lookup(value.value, world)
           case Success(v) => Success(Some(v))
           case Failure(e) => Failure(e)
    }

    function Resolve(value: Option<string>, world: World): Memory {
      if value == None || value == Some("") then this
      else if !IsReference(value.value) then Remember(value.value)
      else if value.value in cache then this
      else match Lookup(value.value, world)
           case Success(v) => this.(cache := cache[value.value := v]).Remember(v)
           case Failure(_) => this
    }

    /** Only long enough values are scrubbed, and every cached one that is long enough will be. */
    predicate Valid() {
      && (forall s :: s in known ==> |s| >= MIN_REDACT_LEN)
      && (forall r :: r in cache && |cache[r]| >= MIN_REDACT_LEN ==> cache[r] in known)
    }
  }

  const EMPTY := Memory(map[], {})

  /** A run order redaction may use: every known secret once, longest first, ties broken in any way. */
  ghost predicate LongestFirst(order: seq<string>, known: set<string>) {
    && (forall s :: s in order <==> s in known)
    && (forall i, j :: 0 <= i < j < |order| ==> order[i] != order[j] && |order[i]| >= |order[j]|)
  }

  // ---------------------------------------------------------------- the process state

  class SecretStore {
    var cache: map<string, string>
    var known: set<string>

    function State(): Memory
      reads this
    {
      Memory(cache, known)
    }

    constructor ()
      ensures State() == EMPTY && State().Valid()
    {
      cache, known := map[], {};
    }

    method Remember(value: string)
      modifies this`known
      ensures State() == old(State()).Remember(value)
    {
      if |value| >= MIN_REDACT_LEN {
        known := known + {value};
      }
    }

    method ResolveSecret(value: Option<string>, world: World)
      returns (reply: Result<Option<string>, SecretError>, asked: bool)
      requires State().Valid()
      modifies this
      ensures State() == old(State()).Resolve(value, world) && State().Valid()
      ensures reply == old(State()).Reply(value, world)
      ensures asked <==> value.Some? && IsReference(value.value) && value.value !in old(cache)
      ensures reply.Failure? ==> unchanged(this)
      ensures value == None || value.value == "" ==> reply == Success(value) && unchanged(this)
      ensures value.Some? && value.value != "" && !IsReference(value.value) ==>
                && reply == Success(value) && cache == old(cache)
                && known == old(known) + if |value.value| >= 4 then {value.value} else {}
      ensures value.Some? && IsReference(value.value) && value.value in old(cache) ==>
                reply == Success(Some(old(cache)[value.value])) && unchanged(this)
      ensures asked && reply.Success? ==>
                && reply.value.Some? && Lookup(value.value, world) == Success(reply.value.value)
                && cache == old(cache)[value.value := reply.value.value]
                && known == old(known) + if |reply.value.value| >= 4 then {reply.value.value} else {}
      ensures asked && reply.Failure? ==> Lookup(value.value, world) == Failure(reply.error)
    {
      asked := false;
      if value == None || value.value == "" {
        return Success(value), asked;
      }
      if !IsReference(value.value) {
        Remember(value.value);
        return Success(value), asked;
      }
      if value.value in cache {
        return Success(Some(cache[value.value])), asked;
      }
      asked := true;
      var resolved := Lookup(value.value, world);
      if resolved.Failure? {
        return Failure(resolved.error), asked;
      }
      cache := cache[value.value := resolved.value];
      Remember(resolved.value);
      reply := Success(Some(resolved.value));
    }

    /** `sorted(known, key=len, reverse=True)`; a set has no order of its own, so neither have the ties. */
    method SortedByLength() returns (order: seq<string>)
      ensures LongestFirst(order, known)
    {
      order := [];
      var rest := known;
      while rest != {}
        invariant rest <= known && LongestFirst(order, known - rest)
        invariant forall o, s :: o in known - rest && s in rest ==> |o| >= |s|
      {
        ghost var _ := Longest(rest);
        var s :| s in rest && forall o :: o in rest ==> |o| <= |s|;
        OneShorter(order, known - rest, s);
        assert known - (rest - {s}) == known - rest + {s};
        order := order + [s];
        rest := rest - {s};
      }
      assert known - rest == known;
    }

    /** Some longest-first order of the remembered secrets was replaced in the text. */
    method Redact(text: string) returns (redacted: string)
      requires State().Valid()
      ensures exists order ::
                LongestFirst(order, known) && AllLonger(order, |STARS|) && redacted == ReplaceAll(text, order)
      ensures forall s :: s in known && Safe(s) ==> !Occurs(s, redacted)
      ensures redacted == text <==> forall s :: s in known ==> !Occurs(s, text)
    {
      var order := SortedByLength();
      redacted := text;
      for i := 0 to |order|
        invariant AllLonger(order, |STARS|)
        invariant redacted == ReplaceAll(text, order[..i])
      {
        redacted := Replace(redacted, order[i]);
        assert order[..i + 1][..i] == order[..i];
      }
      assert order[..|order|] == order;
      RedactedBy(text, order, known);
    }

    method ForgetSecrets()
      modifies this
      ensures State() == EMPTY && State().Valid() && cache == map[] && known == {}
    {
      cache := map[];
      known := {};
    }
  }

  lemma OneShorter(order: seq<string>, done: set<string>, s: string)
    requires LongestFirst(order, done) && s !in done && forall o :: o in done ==> |o| >= |s|
    ensures LongestFirst(order + [s], done + {s})
  {
  }

  lemma {:induction false} Longest(secrets: set<string>) returns (s: string)
    requires secrets != {}
    ensures s in secrets && forall o :: o in secrets ==> |o| <= |s|
  {
    s :| s in secrets;
    if secrets != {s} {
      var other := Longest(secrets - {s});
      s := if |s| > |other| then s else other;
    }
  }

  lemma {:induction false} RedactedBy(text: string, order: seq<string>, known: set<string>)
    requires LongestFirst(order, known) && AllLonger(order, |STARS|)
    ensures forall s :: s in known && Safe(s) ==> !Occurs(s, ReplaceAll(text, order))
    ensures ReplaceAll(text, order) == text <==> forall s :: s in known ==> !Occurs(s, text)
  {
    forall s | s in known && Safe(s) ensures !Occurs(s, ReplaceAll(text, order)) {
      SafeNeverSurvives(text, order, s);
    }
    UnchangedIffClean(text, order);
    if Clean(text, order) {
      forall s | s in known ensures !Occurs(s, text) {
        var i :| 0 <= i < |order| && order[i] == s;
      }
    } else {
      var i :| 0 <= i < |order| && Occurs(order[i], text);
      assert order[i] in order;
    }
  }

  /**
   Why the longest go first: when a secret's turn comes, no strictly longer safe one is left in the
   text, so replacing the shorter can never cut a longer one in two and leave its tail behind.
   */
  lemma {:induction false} LongerGoneAtTurn(text: string, order: seq<string>, known: set<string>, i: nat, j: nat)
    requires LongestFirst(order, known) && AllLonger(order, 0)
    requires i < |order| && j < |order| && |order[j]| > |order[i]| && Safe(order[j])
    ensures !Occurs(order[j], ReplaceAll(text, order[..i]))
  {
    assert j < i;
    assert order[..i][j] == order[j];
    SafeNeverSurvives(text, order[..i], order[j]);
  }

  // ---------------------------------------------------------------- whole runs

  datatype Call = Resolve(value: Option<string>, world: World) | Forget

  function Step(m: Memory, call: Call): Memory {
    match call
    case Resolve(value, world) => m.Resolve(value, world)
    case Forget => EMPTY
  }

  function After(calls: seq<Call>): Memory {
    if calls == [] then EMPTY else Step(After(calls[..|calls| - 1]), calls[|calls| - 1])
  }

  /** What the `i`-th call of a run, a resolve, gave its caller. */
  function ReplyAt(calls: seq<Call>, i: nat): Result<Option<string>, SecretError>
    requires i < |calls| && calls[i].Resolve?
  {
    After(calls[..i]).Reply(calls[i].value, calls[i].world)
  }

  predicate NoForget(calls: seq<Call>, from: nat) {
    forall k :: from <= k < |calls| ==> calls[k] != Forget
  }

  lemma {:induction false} AfterValid(calls: seq<Call>)
    ensures After(calls).Valid()
  {
    if calls != [] { AfterValid(calls[..|calls| - 1]); }
  }

  /** Without a forget, the cache only grows, entries never change, and the memory only grows. */
  lemma {:induction false} MemoryGrows(calls: seq<Call>, i: nat)
    requires i <= |calls| && NoForget(calls, i)
    ensures After(calls[..i]).known <= After(calls).known
    ensures forall r :: r in After(calls[..i]).cache ==>
          r in After(calls).cache && After(calls).cache[r] == After(calls[..i]).cache[r]
  {
    if i == |calls| {
      assert calls[..i] == calls;
    } else {
      var init := calls[..|calls| - 1];
      MemoryGrows(init, i);
      assert init[..i] == calls[..i];
    }
  }

  /**
   A reference is resolved at most once between forgets: after it has been resolved, every later call
   gets the same value without asking again, whatever has changed outside.
   */
  lemma {:induction false} ResolvedOnce(calls: seq<Call>, i: nat, world: World)
    requires i < |calls| && calls[i].Resolve? && NoForget(calls, i)
    requires calls[i].value.Some? && IsReference(calls[i].value.value) && ReplyAt(calls, i).Success?
    ensures After(calls).Reply(calls[i].value, world) == ReplyAt(calls, i)
    ensures !After(calls).Asks(calls[i].value)
    ensures After(calls).Resolve(calls[i].value, world) == After(calls)
  {
    MemoryGrows(calls, i + 1);
    assert calls[..i + 1][..i] == calls[..i];
  }

  /** Every value of length at least 4 handed out since the last forget is remembered. */
  lemma {:induction false} HandedOutIsKnown(calls: seq<Call>, i: nat)
    requires i < |calls| && calls[i].Resolve? && NoForget(calls, i)
    requires ReplyAt(calls, i).Success? && ReplyAt(calls, i).value.Some?
    requires |ReplyAt(calls, i).value.value| >= MIN_REDACT_LEN
    ensures ReplyAt(calls, i).value.value in After(calls).known
  {
    AfterValid(calls[..i]);
    MemoryGrows(calls, i + 1);
    assert calls[..i + 1][..i] == calls[..i];
  }

  /** So no error text shows it: a safe secret handed out since the last forget never survives redaction. */
  lemma {:induction false} HandedOutIsScrubbed(calls: seq<Call>, i: nat, text: string, order: seq<string>)
    requires i < |calls| && calls[i].Resolve? && NoForget(calls, i)
    requires ReplyAt(calls, i).Success? && ReplyAt(calls, i).value.Some?
    requires |ReplyAt(calls, i).value.value| >= MIN_REDACT_LEN && Safe(ReplyAt(calls, i).value.value)
    requires LongestFirst(order, After(calls).known) && AllLonger(order, 0)
    ensures !Occurs(ReplyAt(calls, i).value.value, ReplaceAll(text, order))
  {
    HandedOutIsKnown(calls, i);
    SafeNeverSurvives(text, order, ReplyAt(calls, i).value.value);
  }
}
