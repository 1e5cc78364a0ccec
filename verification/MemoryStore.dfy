/** The dictionary repository: the reference the database must agree with. */
module MemoryStore {
  import opened ApprovalModel
  import opened Options

  /** Its three dictionaries as one value. */
  datatype Store = Store(
    actions: map<Id, PendingAction>,
    claims: map<string, Id>,
    reserved: map<string, Id>)
  {
    function Get(id: Id): Option<PendingAction> {
      if id in actions then Some(actions[id]) else None
    }

    function Insert(a: PendingAction): Result<Store> {
      if a.actionId in actions then Raise(DuplicateActionId)
      else if a.idempotencyKey in reserved then Raise(DuplicateIdempotencyKey)
      else Ok(this.(actions := actions[a.actionId := a], reserved := reserved[a.idempotencyKey := a.actionId]))
    }

    /** Compare-and-swap on the version. */
    function Replace(a: PendingAction, expectedVersion: int): Result<Store> {
      if a.actionId !in actions then Raise(MissingAction)
      else if actions[a.actionId].version != expectedVersion then Raise(ConcurrentUpdate)
      else if a.version != expectedVersion + 1 then Raise(VersionSkew)
      else Ok(this.(actions := actions[a.actionId := a]))
    }

    /** None when the key is taken. */
    function Claim(key: string, id: Id): Option<Store> {
      if key in claims then None else Some(this.(claims := claims[key := id]))
    }
  }

  const EMPTY: Store := Store(map[], map[], map[])

  class InMemoryApprovalRepository {
    var actions: map<Id, PendingAction>
    var idempotency: map<string, Id>
    var pendingIdempotency: map<string, Id>

    ghost function Value(): Store
      reads this
    {
      Store(actions, idempotency, pendingIdempotency)
    }

    constructor ()
      ensures Value() == EMPTY
    {
      actions, idempotency, pendingIdempotency := map[], map[], map[];
    }

    method Insert(action: PendingAction) returns (r: Result<()>)
      modifies this
      ensures match old(Value()).Insert(action)
              case Ok(s) => r == Ok(()) && Value() == s
              case Raise(e) => r == Raise(e) && Value() == old(Value())
    {
      if action.actionId in actions { return Raise(DuplicateActionId); }
      if action.idempotencyKey in pendingIdempotency { return Raise(DuplicateIdempotencyKey); }
      actions := actions[action.actionId := action];
      pendingIdempotency := pendingIdempotency[action.idempotencyKey := action.actionId];
      r := Ok(());
    }

    method Get(actionId: Id) returns (r: Option<PendingAction>)
      ensures r == Value().Get(actionId)
    {
      r := if actionId in actions then Some(actions[actionId]) else None;
    }

    method Replace(action: PendingAction, expectedVersion: int) returns (r: Result<()>)
      modifies this
      ensures match old(Value()).Replace(action, expectedVersion)
              case Ok(s) => r == Ok(()) && Value() == s
              case Raise(e) => r == Raise(e) && Value() == old(Value())
    {
      if action.actionId !in actions { return Raise(MissingAction); }
      var current := actions[action.actionId];
      if current.version != expectedVersion { return Raise(ConcurrentUpdate); }
      if action.version != expectedVersion + 1 { return Raise(VersionSkew); }
      actions := actions[action.actionId := action];
      r := Ok(());
    }

    method ClaimIdempotency(key: string, actionId: Id) returns (granted: bool)
      modifies this
      ensures granted <==> key !in old(idempotency)
      ensures Value() == if granted then old(Value()).Claim(key, actionId).value else old(Value())
    {
      if key in idempotency { return false; }
      idempotency := idempotency[key := actionId];
      granted := true;
    }

    /** Every stored action once, in dictionary order (left open here). */
    method ListActions() returns (listed: seq<PendingAction>, ids: seq<Id>)
      ensures |listed| == |ids|
      ensures forall i :: 0 <= i < |ids| ==> ids[i] in actions && listed[i] == actions[ids[i]]
      ensures forall i, j :: 0 <= i < j < |ids| ==> ids[i] != ids[j]
      ensures forall id <- actions :: id in ids
    {
      listed, ids := [], [];
      var rest := actions.Keys;
      while rest != {}
        invariant rest <= actions.Keys
        invariant |listed| == |ids|
        invariant forall i :: 0 <= i < |ids| ==> ids[i] in actions && listed[i] == actions[ids[i]] && ids[i] !in rest
        invariant forall i, j :: 0 <= i < j < |ids| ==> ids[i] != ids[j]
        invariant forall id <- actions :: id in ids || id in rest
        decreases |rest|
      {
        var id :| id in rest;
        listed, ids := listed + [actions[id]], ids + [id];
        rest := rest - {id};
      }
    }
  }
}
