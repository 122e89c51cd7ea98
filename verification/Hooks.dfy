/**
 Hooks: the seven lists a plugin scope carries, how scopes inherit them, and how lists of hooks run.
 */
module Hooks {
  import opened Wrappers
  import opened Outcomes

  /** A hook's identity. */
  type Hook = nat

  datatype Stage = OnRequest | PreParse | PreValidate | PreHandler | PreSerialize | OnError | OnResponse

  datatype HookScope = HookScope(
    onRequest: seq<Hook>,
    preParse: seq<Hook>,
    preValidate: seq<Hook>,
    preHandler: seq<Hook>,
    preSerialize: seq<Hook>,
    onError: seq<Hook>,
    onResponse: seq<Hook>)
  {
    function At(stage: Stage): seq<Hook> {
      match stage
      case OnRequest => onRequest
      case PreParse => preParse
      case PreValidate => preValidate
      case PreHandler => preHandler
      case PreSerialize => preSerialize
      case OnError => onError
      case OnResponse => onResponse
    }

    /** `HookScope::is_empty`. */
    predicate IsEmpty() {
      && onRequest == [] && preParse == [] && preValidate == [] && preHandler == [] && preSerialize == []
      && onError == [] && onResponse == []
    }

    /** `HookScope::inherited`: the scope's hooks first, the plugin's after them, stage by stage. */
    function Inherited(plugin: HookScope): HookScope {
      HookScope(
        onRequest + plugin.onRequest, preParse + plugin.preParse, preValidate + plugin.preValidate,
        preHandler + plugin.preHandler, preSerialize + plugin.preSerialize,
        onError + plugin.onError, onResponse + plugin.onResponse)
    }
  }

  lemma InheritedAt(scope: HookScope, plugin: HookScope, stage: Stage)
    ensures scope.Inherited(plugin).At(stage) == scope.At(stage) + plugin.At(stage)
  {
  }

  const NO_HOOKS := HookScope([], [], [], [], [], [], [])

  lemma EmptyExactly(scope: HookScope)
    ensures scope.IsEmpty() <==> forall stage :: scope.At(stage) == []
  {
    if forall stage :: scope.At(stage) == [] {
      assert scope.At(OnRequest) == [] && scope.At(PreParse) == [] && scope.At(PreValidate) == [];
      assert scope.At(PreHandler) == [] && scope.At(PreSerialize) == [] && scope.At(OnError) == [];
      assert scope.At(OnResponse) == [];
    }
  }

  /** The first failure of `ran`, in the order run. */
  function FirstError(ran: seq<Hook>, run: Hook -> Option<DependencyError>): (error: Option<DependencyError>)
    ensures error.None? <==> forall k | 0 <= k < |ran| :: run(ran[k]).None?
  {
    if ran == [] then None else if run(ran[0]).Some? then run(ran[0]) else FirstError(ran[1..], run)
  }

  lemma {:induction false} FirstErrorExactly(ran: seq<Hook>, run: Hook -> Option<DependencyError>, error: DependencyError)
    ensures FirstError(ran, run) == Some(error)
       <==> exists k | 0 <= k < |ran| :: run(ran[k]) == Some(error) && forall j | 0 <= j < k :: run(ran[j]).None?
  {
    if ran != [] {
      FirstErrorExactly(ran[1..], run, error);
      assert forall j | 1 <= j < |ran| :: ran[j] == ran[1..][j - 1];
      if run(ran[0]).None? && FirstError(ran, run) == Some(error) {
        var k :| 0 <= k < |ran[1..]| && run(ran[1..][k]) == Some(error) && forall j | 0 <= j < k :: run(ran[1..][j]).None?;
        assert run(ran[k + 1]) == Some(error);
        assert forall j | 0 <= j < k + 1 :: run(ran[j]).None?;
      }
      if run(ran[0]).None? && exists k | 0 <= k < |ran| :: run(ran[k]) == Some(error) && forall j | 0 <= j < k :: run(ran[j]).None? {
        var k :| 0 <= k < |ran| && run(ran[k]) == Some(error) && forall j | 0 <= j < k :: run(ran[j]).None?;
        assert run(ran[1..][k - 1]) == Some(error);
        assert forall j | 0 <= j < k - 1 :: run(ran[1..][j]).None?;
      }
    }
  }

  function Backwards(hooks: seq<Hook>): (r: seq<Hook>)
    ensures |r| == |hooks| && forall k | 0 <= k < |hooks| :: r[k] == hooks[|hooks| - 1 - k]
  {
    seq(|hooks|, k requires 0 <= k < |hooks| => hooks[|hooks| - 1 - k])
  }

  lemma {:induction false} ErrorAppends(ran: seq<Hook>, hook: Hook, run: Hook -> Option<DependencyError>)
    ensures FirstError(ran + [hook], run) == if FirstError(ran, run).Some? then FirstError(ran, run) else run(hook)
    decreases |ran|
  {
    if ran == [] {
      assert ([] + [hook])[1..] == [];
    } else {
      assert (ran + [hook])[1..] == ran[1..] + [hook];
      ErrorAppends(ran[1..], hook, run);
    }
  }

  /** Hooks in order, up to and including the first that fails. */
  method RunForwards(hooks: seq<Hook>, run: Hook -> Option<DependencyError>) returns (error: Option<DependencyError>, ran: seq<Hook>)
    ensures ran <= hooks && error == FirstError(hooks, run)
    ensures error.None? ==> ran == hooks
    ensures error.Some? ==>
              && ran != [] && run(ran[|ran| - 1]) == error
              && forall k | 0 <= k < |ran| - 1 :: run(ran[k]).None?
  {
    ran := [];
    for at := 0 to |hooks|
      invariant ran == hooks[..at] && FirstError(hooks, run) == FirstError(hooks[at..], run)
      invariant forall k | 0 <= k < at :: run(hooks[k]).None?
    {
      assert hooks[..at + 1] == hooks[..at] + [hooks[at]] && hooks[at..][1..] == hooks[at + 1..];
      ran := ran + [hooks[at]];
      error := run(hooks[at]);
      if error.Some? {
        return;
      }
    }
    error := None;
  }

  /** Every hook, last registered first, whatever fails; the first failure is reported. */
  method RunBackwards(hooks: seq<Hook>, run: Hook -> Option<DependencyError>) returns (error: Option<DependencyError>, ran: seq<Hook>)
    ensures ran == Backwards(hooks) && error == FirstError(ran, run)
  {
    error, ran := None, [];
    ghost var all := Backwards(hooks);
    var at := |hooks|;
    while at > 0
      invariant 0 <= at <= |hooks| && ran == all[..|hooks| - at] && error == FirstError(ran, run)
    {
      at := at - 1;
      var failed := run(hooks[at]);
      assert all[..|hooks| - at] == ran + [hooks[at]];
      ErrorAppends(ran, hooks[at], run);
      ran := ran + [hooks[at]];
      if error.None? {
        error := failed;
      }
    }
    assert all[..|hooks|] == all;
  }
}
