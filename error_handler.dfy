/**
 * The browser's error-listener registry: per error type, a list of listeners
 * in registration order; dispatch walks the type's list, then the UNKNOWN
 * list, and finally the global handler, stopping at the first listener that
 * answers `true`.
 */
module ErrorRegistry {
  import opened Text

  const Network: string := "network"
  const Api: string := "api"
  const Validation: string := "validation"
  const Auth: string := "auth"
  const UnknownType: string := "unknown"

  /**
   * A listener function, identified by reference: `off` compares listeners
   * with `!==`, so two registrations of the same function are the same listener.
   */
  type Listener = nat

  /** The error records the factory methods build; `Other` is any record of another type. */
  datatype ErrorInfo =
    | NetworkError(message: string, timestamp: int)
    | ApiError(statusCode: int, body: Option<ApiBody>, message: string, timestamp: int)
    | ValidationError(fieldErrors: map<string, string>, message: string, timestamp: int)
    | Other(kind: string, message: string)

  /** The parsed response body of a failed API call; only its `message` field matters here. */
  datatype ApiBody = ApiBody(message: Option<string>)

  /** The record's `type` field. */
  function Kind(e: ErrorInfo): string
  {
    match e
    case NetworkError(_, _) => Network
    case ApiError(_, _, _, _) => Api
    case ValidationError(_, _, _) => Validation
    case Other(k, _) => k
  }

  /** `s || fallback` for an optional string: missing and empty both fall back. */
  function OrDefault(s: Option<string>, fallback: string): (r: string)
    ensures (s.Some? && s.value != []) ==> r == s.value
    ensures (s.None? || s.value == []) ==> r == fallback
  {
    if s.Some? && s.value != [] then s.value else fallback
  }

  // ---- the factory methods ----

  const NetworkDefault: string := "网络请求失败"
  const ValidationDefault: string := "输入验证失败"

  /** `createNetworkError`; the original error is carried along unchanged and is not modelled. */
  function CreateNetworkError(message: Option<string>, now: int): (e: ErrorInfo)
    ensures e.NetworkError? && Kind(e) == Network && e.message != [] && e.timestamp == now
    ensures e.message == OrDefault(message, NetworkDefault)
  {
    NetworkError(OrDefault(message, NetworkDefault), now)
  }

  /** The message of an API error whose body carries none. */
  function ApiDefault(statusCode: int): string
  {
    "API请求失败 (" + IntToString(statusCode) + ")"
  }

  /** `createApiError`: the body's message when it has a non-empty one, else a text naming the status. */
  function CreateApiError(statusCode: int, body: Option<ApiBody>, now: int): (e: ErrorInfo)
    ensures e.ApiError? && Kind(e) == Api && e.message != [] && e.statusCode == statusCode && e.body == body
    ensures body.Some? && body.value.message.Some? && body.value.message.value != [] ==> e.message == body.value.message.value
    ensures body.None? || body.value.message.None? || body.value.message.value == [] ==> e.message == ApiDefault(statusCode)
  {
    var given := if body.Some? then body.value.message else None;
    ApiError(statusCode, body, OrDefault(given, ApiDefault(statusCode)), now)
  }

  /** `createValidationError`: missing field errors become the empty object. */
  function CreateValidationError(fieldErrors: Option<map<string, string>>, message: Option<string>, now: int): (e: ErrorInfo)
    ensures e.ValidationError? && Kind(e) == Validation && e.message != []
    ensures e.fieldErrors == if fieldErrors.Some? then fieldErrors.value else map[]
    ensures e.message == OrDefault(message, ValidationDefault)
  {
    ValidationError(if fieldErrors.Some? then fieldErrors.value else map[], OrDefault(message, ValidationDefault), now)
  }

  /** Two API errors with no usable body message are told apart by their texts exactly when their statuses differ. */
  lemma ApiDefaultInjective(a: int, b: int)
    requires ApiDefault(a) == ApiDefault(b)
    ensures a == b
  {
    var p := "API请求失败 (";
    var sa, sb := ApiDefault(a), ApiDefault(b);
    assert IntToString(a) == sa[|p|..|sa| - 1];
    assert IntToString(b) == sb[|p|..|sb| - 1];
    IntValueOfIntToString(a);
    IntValueOfIntToString(b);
  }

  // ---- the listener lists ----

  /** The list registered for `kind`, or the empty list (`this.listeners[type] || []`). */
  function Lookup(listeners: map<string, seq<Listener>>, kind: string): (r: seq<Listener>)
    ensures r != [] ==> kind in listeners && r == listeners[kind]
  {
    if kind in listeners then listeners[kind] else []
  }

  /** The list with every occurrence of `cb` filtered out. */
  function Without(ls: seq<Listener>, cb: Listener): (r: seq<Listener>)
    ensures |r| <= |ls|
  {
    if ls == [] then []
    else (if ls[0] == cb then [] else [ls[0]]) + Without(ls[1..], cb)
  }

  /** Filtering works on each part of a concatenation separately, so the order of the rest is kept. */
  lemma {:induction false} WithoutAppend(a: seq<Listener>, b: seq<Listener>, cb: Listener)
    ensures Without(a + b, cb) == Without(a, cb) + Without(b, cb)
    decreases |a|
  {
    if a == [] {
      assert a + b == b;
    } else {
      assert (a + b)[1..] == a[1..] + b;
      WithoutAppend(a[1..], b, cb);
    }
  }

  /** What survives the filter: exactly the listeners other than `cb`. */
  lemma {:induction false} WithoutMembers(ls: seq<Listener>, cb: Listener, x: Listener)
    ensures x in Without(ls, cb) <==> x in ls && x != cb
    decreases |ls|
  {
    if ls != [] {
      WithoutMembers(ls[1..], cb, x);
      assert ls == [ls[0]] + ls[1..];
    }
  }

  /** A list without `cb` passes through the filter unchanged. */
  lemma {:induction false} WithoutAbsent(ls: seq<Listener>, cb: Listener)
    requires cb !in ls
    ensures Without(ls, cb) == ls
    decreases |ls|
  {
    if ls != [] {
      assert ls[1..] + [] == ls[1..];
      WithoutAbsent(ls[1..], cb);
      assert ls == [ls[0]] + ls[1..];
    }
  }

  /** Registering a new listener and then removing it restores the list. */
  lemma OffUndoesOn(ls: seq<Listener>, cb: Listener)
    requires cb !in ls
    ensures Without(ls + [cb], cb) == ls
  {
    WithoutAppend(ls, [cb], cb);
    WithoutAbsent(ls, cb);
    assert Without([cb], cb) == [] by {
      assert [cb][1..] == [];
    }
  }

  // ---- dispatch, as a reference definition ----

  /** Position of the first listener that answers `true`, or the list's length when none does. */
  function FirstHandler(ls: seq<Listener>, answers: Listener -> bool): (k: nat)
    ensures k <= |ls|
    ensures forall i :: 0 <= i < k ==> !answers(ls[i])
    ensures k < |ls| ==> answers(ls[k])
  {
    if ls == [] then 0
    else if answers(ls[0]) then 0
    else 1 + FirstHandler(ls[1..], answers)
  }

  /** The first listener answering `true` is unique: any position with the defining properties is it. */
  lemma {:induction false} FirstHandlerIs(ls: seq<Listener>, answers: Listener -> bool, i: nat)
    requires i <= |ls|
    requires forall j :: 0 <= j < i ==> !answers(ls[j])
    requires i < |ls| ==> answers(ls[i])
    ensures FirstHandler(ls, answers) == i
    decreases |ls|
  {
    if ls != [] && i > 0 {
      FirstHandlerIs(ls[1..], answers, i - 1);
    }
  }

  /** Whether a walk over a list was stopped by a listener, and the listeners it called, in order. */
  datatype Walk = Walk(handled: bool, calls: seq<Listener>)

  /** One `for … of` walk with `break` at the first `true`. */
  function Scan(ls: seq<Listener>, answers: Listener -> bool): (w: Walk)
    ensures w.calls <= ls
    ensures w.handled ==> w.calls != [] && answers(w.calls[|w.calls| - 1])
    ensures !w.handled ==> w.calls == ls
  {
    var k := FirstHandler(ls, answers);
    if k < |ls| then Walk(true, ls[..k + 1]) else Walk(false, ls)
  }

  /** The result of `handleError`: the returned flag, the listeners called, and whether the global handler ran. */
  datatype Outcome = Outcome(handled: bool, calls: seq<Listener>, globalCalled: bool)

  /** Some listener of the list answers `true`. */
  predicate AnyAnswers(ls: seq<Listener>, answers: Listener -> bool)
  {
    exists i :: 0 <= i < |ls| && answers(ls[i])
  }

  /** The walk over the type's list, then, if nobody answered and an UNKNOWN list exists, over that list. */
  function Dispatch(listeners: map<string, seq<Listener>>, kind: string, answers: Listener -> bool, globalSet: bool): (o: Outcome)
    ensures o.handled ==> o.calls != [] && answers(o.calls[|o.calls| - 1])
    ensures o.globalCalled ==> !o.handled
    ensures Lookup(listeners, kind) <= o.calls || o.handled
  {
    var typed := Scan(Lookup(listeners, kind), answers);
    var fallback :=
      if !typed.handled && UnknownType in listeners then Scan(listeners[UnknownType], answers)
      else Walk(false, []);
    var handled := typed.handled || fallback.handled;
    Outcome(handled, typed.calls + fallback.calls, !handled && globalSet)
  }

  /** A walk is stopped exactly when some listener answers `true`; it calls everyone before that one. */
  lemma ScanIff(ls: seq<Listener>, answers: Listener -> bool)
    ensures Scan(ls, answers).handled <==> AnyAnswers(ls, answers)
    ensures Scan(ls, answers).handled ==>
      var c := Scan(ls, answers).calls;
      c != [] && answers(c[|c| - 1]) && forall i :: 0 <= i < |c| - 1 ==> !answers(c[i])
    ensures !Scan(ls, answers).handled ==> Scan(ls, answers).calls == ls
  {
    var k := FirstHandler(ls, answers);
  }

  /** The error counts as handled exactly when a listener of its type, or else an UNKNOWN listener, answers `true`. */
  lemma HandledIff(listeners: map<string, seq<Listener>>, kind: string, answers: Listener -> bool, globalSet: bool)
    ensures Dispatch(listeners, kind, answers, globalSet).handled <==>
      (AnyAnswers(Lookup(listeners, kind), answers) ||
       (UnknownType in listeners && AnyAnswers(listeners[UnknownType], answers)))
  {
    ScanIff(Lookup(listeners, kind), answers);
    if UnknownType in listeners {
      ScanIff(listeners[UnknownType], answers);
    }
  }

  /** The global handler runs exactly when it is set and no listener handled the error. */
  lemma GlobalIff(listeners: map<string, seq<Listener>>, kind: string, answers: Listener -> bool, globalSet: bool)
    ensures var o := Dispatch(listeners, kind, answers, globalSet);
      o.globalCalled <==>
        (globalSet && !AnyAnswers(Lookup(listeners, kind), answers) &&
         !(UnknownType in listeners && AnyAnswers(listeners[UnknownType], answers)))
  {
    HandledIff(listeners, kind, answers, globalSet);
  }

  /** An unhandled UNKNOWN error walks the UNKNOWN list twice: once as its type's list, once as the fallback. */
  lemma UnknownWalkedTwice(listeners: map<string, seq<Listener>>, answers: Listener -> bool, globalSet: bool)
    requires UnknownType in listeners
    requires !AnyAnswers(listeners[UnknownType], answers)
    ensures Dispatch(listeners, UnknownType, answers, globalSet).calls == listeners[UnknownType] + listeners[UnknownType]
  {
    ScanIff(listeners[UnknownType], answers);
  }

  /** A listener of the error's own type that answers `true` stops dispatch: nothing after it runs. */
  lemma TypedHandlerStops(listeners: map<string, seq<Listener>>, kind: string, answers: Listener -> bool, globalSet: bool, i: nat)
    requires i < |Lookup(listeners, kind)| && answers(Lookup(listeners, kind)[i])
    ensures var o := Dispatch(listeners, kind, answers, globalSet);
      o.handled && !o.globalCalled && |o.calls| <= i + 1 && o.calls == Lookup(listeners, kind)[..|o.calls|]
  {
    var ls := Lookup(listeners, kind);
    var k := FirstHandler(ls, answers);
    assert k <= i;
  }

  /** One `for … of` loop over a list, calling each listener until one answers `true`. */
  method RunListeners(ls: seq<Listener>, answers: Listener -> bool) returns (handled: bool, calls: seq<Listener>)
    ensures Walk(handled, calls) == Scan(ls, answers)
  {
    handled := false;
    calls := [];
    var i := 0;
    while i < |ls|
      invariant 0 <= i <= |ls|
      invariant calls == ls[..i]
      invariant forall j :: 0 <= j < i ==> !answers(ls[j])
    {
      calls := calls + [ls[i]];
      if answers(ls[i]) {
        handled := true;
        FirstHandlerIs(ls, answers, i);
        return;
      }
      i := i + 1;
    }
    assert ls[..|ls|] == ls;
    FirstHandlerIs(ls, answers, |ls|);
  }

  /** The registry of listener lists, keyed by error type. */
  class ErrorHandler {
    var listeners: map<string, seq<Listener>>

    constructor ()
      ensures listeners == map[]
    {
      listeners := map[];
    }

    /** `on`: append `cb` to the type's list, creating the list when there is none. */
    method On(kind: string, cb: Listener)
      modifies this
      ensures listeners == old(listeners)[kind := Lookup(old(listeners), kind) + [cb]]
      ensures forall k :: k in old(listeners) && k != kind ==> k in listeners && listeners[k] == old(listeners)[k]
    {
      if kind !in listeners {
        listeners := listeners[kind := []];
      }
      listeners := listeners[kind := listeners[kind] + [cb]];
    }

    /** `off`: filter every occurrence of `cb` out of the type's list; an unknown type is left alone. */
    method Off(kind: string, cb: Listener)
      modifies this
      ensures kind !in old(listeners) ==> listeners == old(listeners)
      ensures kind in old(listeners) ==> listeners == old(listeners)[kind := Without(old(listeners)[kind], cb)]
    {
      if kind in listeners {
        listeners := listeners[kind := Without(listeners[kind], cb)];
      }
    }

    /**
     * `handleError`. `answers(l)` says whether listener `l` returns exactly
     * `true` for this error, and `globalSet` whether a global handler is installed.
     */
    method HandleError(e: ErrorInfo, answers: Listener -> bool, globalSet: bool)
      returns (handled: bool, calls: seq<Listener>, globalCalled: bool)
      ensures Outcome(handled, calls, globalCalled) == Dispatch(listeners, Kind(e), answers, globalSet)
    {
      var typed := if Kind(e) in listeners then listeners[Kind(e)] else [];
      handled, calls := RunListeners(typed, answers);
      if !handled && UnknownType in listeners {
        var more;
        handled, more := RunListeners(listeners[UnknownType], answers);
        calls := calls + more;
      }
      globalCalled := !handled && globalSet;
    }
  }
}
