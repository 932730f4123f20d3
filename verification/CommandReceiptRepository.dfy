/** The command receipt repository as it runs: a receipt is inserted as processing, its key is
    bound, the effect runs, and the receipt is completed; a throw rolls everything back. */
module CommandReceiptRepository {
  import opened Outcomes
  import opened CommandReceipts
  import opened CommandReceiptRuns

  class CommandReceiptRepository<!T, !J, !W> {
    var receipts: seq<Receipt<J>>
    var bindings: seq<Binding>
    var world: W

    function Tables(): State<J, W>
      reads this
    {
      State(receipts, bindings, world)
    }

    constructor (world: W)
      ensures Tables() == State([], [], world) && Sound(Tables())
    {
      receipts, bindings, this.world := [], [], world;
    }

    /** The call takes the step of the receipts; the effect does not call back in here. */
    method Execute(call: Call<T, J, W>) returns (answer: Result<Execution<T>, ReceiptError>)
      requires Sound(Tables()) && FreshId(receipts, call.id)
      modifies this
      ensures Sound(Tables())
      ensures (Tables(), answer) == CommandReceipts.Execute(old(Tables()), call)
    {
      ExecuteKeeps(Tables(), call);
      var saved := Tables();
      answer := Attempt(call);
      if answer.Err? {
        receipts, bindings, world := saved.receipts, saved.bindings, saved.world;
      }
    }

    method Attempt(call: Call<T, J, W>) returns (answer: Result<Execution<T>, ReceiptError>)
      requires Sound(Tables()) && FreshId(receipts, call.id)
      modifies this
      ensures var (after, expected) := CommandReceipts.Execute(old(Tables()), call);
        answer == expected && (answer.Ok? ==> Tables() == after)
    {
      var request, codec := call.request, call.codec;
      if !RequestOk(request, codec) { return Err(InvalidRequest); }
      var key := FindBinding(bindings, request);
      var identity := if NamesIdentity(request) then FindIdentity(receipts, request) else None;
      var keyed := if key.Some? then FindReceipt(receipts, bindings[key.value].receipt) else None;
      if key.Some? && keyed.None? { return Err(Corrupt); }
      if keyed.Some? && receipts[keyed.value].scope != request.scope { return Err(Corrupt); }
      if keyed.Some? && identity.Some? && keyed.value != identity.value { return Err(Conflict); }
      var found := if keyed.Some? then keyed else identity;
      if found.Some? {
        answer := ReplayReceipt(receipts[found.value], request, codec);
        if answer.Ok? && key.None? {
          bindings := bindings + [Binding(request.scope, request.key, receipts[found.value].id)];
        }
        return;
      }
      answer := RunCommand(call);
    }

    method ReplayReceipt(receipt: Receipt<J>, request: Request, codec: Codec<T, J>)
      returns (answer: Result<Execution<T>, ReceiptError>)
      ensures match Replay(receipt, request, codec)
              case Ok(value) => answer == Ok(Execution(value, true, receipt.id))
              case Err(e) => answer == Err(e)
    {
      if receipt.scope != request.scope { return Err(Corrupt); }
      if receipt.identity != request.identity || receipt.version != request.version || receipt.digest != request.digest {
        return Err(Conflict);
      }
      if receipt.status != Succeeded { return Err(Incomplete); }
      if receipt.resultVersion != Some(codec.version) || receipt.result.None? { return Err(Corrupt); }
      var value := codec.decode(receipt.result.value);
      if value.None? { return Err(Corrupt); }
      answer := Ok(Execution(value.value, true, receipt.id));
    }

    /** A new command: the completing update finds the receipt it inserted. */
    method RunCommand(call: Call<T, J, W>) returns (answer: Result<Execution<T>, ReceiptError>)
      requires Sound(Tables()) && FreshId(receipts, call.id)
      modifies this
      ensures var (after, expected) := RunNew(old(Tables()), call);
        answer == expected && (answer.Ok? ==> Tables() == after)
    {
      var request := call.request;
      var violation := InsertError(receipts, request);
      if violation.Some? { return Err(violation.value); }
      receipts := receipts + [Started(request, call.id)];
      bindings := bindings + [Binding(request.scope, request.key, call.id)];
      var done := call.effect(world);
      if done.None? { return Err(EffectFailed); }
      world := done.value.1;
      var result := call.codec.encode(done.value.0);
      if result.None? { return Err(EncodeFailed); }
      var count := CompleteReceipt(call.id, call.codec.version, result.value);
      if count != 1 { return Err(Incomplete); }
      answer := Ok(Execution(done.value.0, false, call.id));
    }

    /** UPDATE of the receipts with this id that are still processing. */
    method CompleteReceipt(id: nat, version: int, result: J) returns (count: nat)
      requires receipts != [] && receipts[|receipts| - 1].id == id && receipts[|receipts| - 1].status == Processing
      requires FreshId(receipts[..|receipts| - 1], id)
      modifies this`receipts
      ensures count == 1
      ensures var last := |old(receipts)| - 1; receipts == old(receipts)[last := Finished(old(receipts)[last], version, result)]
    {
      count := 0;
      var i := 0;
      while i < |receipts|
        invariant 0 <= i <= |receipts| == |old(receipts)|
        invariant i < |receipts| ==> receipts == old(receipts) && count == 0
        invariant i == |receipts| ==> count == 1
        invariant i == |receipts| ==> receipts == old(receipts)[i - 1 := Finished(old(receipts)[i - 1], version, result)]
      {
        assert i < |receipts| - 1 ==> receipts[i] == receipts[..|receipts| - 1][i];
        if receipts[i].id == id && receipts[i].status == Processing {
          receipts := receipts[i := Finished(receipts[i], version, result)];
          count := count + 1;
        }
        i := i + 1;
      }
    }
  }
}
