/** Command receipts: a command runs at most once per idempotency key and per command
    identity, and a repeated command gets the stored answer. T is the type of a command's
    value, J of its persisted form and W of the data the effects change. A call that throws
    rolls its transaction back. */
module CommandReceipts {
  import opened Outcomes
  import opened Positions
  import opened Digests

  /** A command of a tenant; the API surface is the same for all. */
  datatype Scope = Scope(tenant: string, namespace: string, command: string)

  datatype Request = Request(
    scope: Scope,
    identity: Option<string>,
    key: string,
    version: int,
    digest: string
  )

  datatype Status = Processing | Succeeded

  datatype Receipt<J> = Receipt(
    id: nat,
    scope: Scope,
    identity: Option<string>,
    version: int,
    digest: string,
    status: Status,
    resultVersion: Option<int>,
    result: Option<J>
  )

  datatype Binding = Binding(scope: Scope, key: string, receipt: nat)

  /** Encoding or decoding throws where the result is none. */
  datatype Codec<!T, !J> = Codec(version: int, encode: T -> Option<J>, decode: J -> Option<T>)

  datatype Execution<T> = Execution(value: T, replayed: bool, receipt: nat)

  datatype ReceiptError =
    | InvalidRequest
    | Corrupt
    | Conflict
    | Incomplete
    | UniqueViolation
    | CheckViolation
    | EffectFailed
    | EncodeFailed

  datatype State<J, W> = State(receipts: seq<Receipt<J>>, bindings: seq<Binding>, world: W)

  /** One call: the request, its codec, the effect (none if it throws) and the fresh uuid. */
  datatype Call<!T, !J, !W> = Call(request: Request, codec: Codec<T, J>, effect: W -> Option<(T, W)>, id: nat)

  predicate RequestOk<T, J>(request: Request, codec: Codec<T, J>) {
    && request.key != "" && request.scope.command != ""
    && |request.digest| == DIGEST_LENGTH
    && request.version >= 1 && codec.version >= 1
  }

  function FindBinding(bindings: seq<Binding>, request: Request): Option<nat> {
    First(|bindings|, (i: nat) => i < |bindings| && bindings[i].scope == request.scope && bindings[i].key == request.key)
  }

  predicate HasIdentity<J>(receipt: Receipt<J>, request: Request) {
    receipt.scope == request.scope && receipt.identity == request.identity
  }

  function FindIdentity<J>(receipts: seq<Receipt<J>>, request: Request): Option<nat> {
    First(|receipts|, (i: nat) => i < |receipts| && HasIdentity(receipts[i], request))
  }

  function FindReceipt<J>(receipts: seq<Receipt<J>>, id: nat): Option<nat> {
    First(|receipts|, (i: nat) => i < |receipts| && receipts[i].id == id)
  }

  /** The identity names something; the empty text counts as absent in a lookup. */
  predicate NamesIdentity(request: Request) {
    request.identity.Some? && request.identity.value != ""
  }

  /** The receipt the request refers to, none if it is a new command. */
  function Lookup<J>(receipts: seq<Receipt<J>>, bindings: seq<Binding>, request: Request): Result<Option<nat>,
                     ReceiptError> {
    var key := FindBinding(bindings, request);
    var identity := if NamesIdentity(request) then FindIdentity(receipts, request) else None;
    match key
    case None => Ok(identity)
    case Some(b) =>
      match FindReceipt(receipts, bindings[b].receipt)
      case None => Err(Corrupt)
      case Some(r) =>
        if receipts[r].scope != request.scope then Err(Corrupt)
        else if identity.Some? && identity.value != r then Err(Conflict)
        else Ok(Some(r))
  }

  predicate Matches<J>(receipt: Receipt<J>, request: Request) {
    receipt.identity == request.identity && receipt.version == request.version && receipt.digest == request.digest
  }

  function Replay<T, J>(receipt: Receipt<J>, request: Request, codec: Codec<T, J>): Result<T, ReceiptError> {
    if receipt.scope != request.scope then Err(Corrupt)
    else if !Matches(receipt, request) then Err(Conflict)
    else if receipt.status != Succeeded then Err(Incomplete)
    else if receipt.resultVersion != Some(codec.version) || receipt.result.None? then Err(Corrupt)
    else
      match codec.decode(receipt.result.value)
      case None => Err(Corrupt)
      case Some(value) => Ok(value)
  }

  function Started<J>(request: Request, id: nat): Receipt<J> {
    Receipt(id, request.scope, request.identity, request.version, request.digest, Processing, None, None)
  }

  function Finished<J>(receipt: Receipt<J>, version: int, result: J): Receipt<J> {
    receipt.(status := Succeeded, resultVersion := Some(version), result := Some(result))
  }

  /** The indexes and checks of the receipt table. */
  function InsertError<J>(receipts: seq<Receipt<J>>, request: Request): Option<ReceiptError> {
    if !IsDigest(request.digest) then Some(CheckViolation)
    else if request.identity.Some? && FindIdentity(receipts, request).Some? then Some(UniqueViolation)
    else None
  }

  function RunNew<T, J, W>(s: State<J, W>, call: Call<T, J, W>): (State<J, W>, Result<Execution<T>, ReceiptError>) {
    var request := call.request;
    match InsertError(s.receipts, request)
    case Some(e) => (s, Err(e))
    case None =>
      match call.effect(s.world)
      case None => (s, Err(EffectFailed))
      case Some((value, world)) =>
        match call.codec.encode(value)
        case None => (s, Err(EncodeFailed))
        case Some(result) =>
          (State(s.receipts + [Finished(Started(request, call.id), call.codec.version, result)],
                 s.bindings + [Binding(request.scope, request.key, call.id)], world),
           Ok(Execution(value, false, call.id)))
  }

  function Bind(bindings: seq<Binding>, request: Request, receipt: nat): seq<Binding> {
    if FindBinding(bindings, request).Some? then bindings
    else bindings + [Binding(request.scope, request.key, receipt)]
  }

  function Execute<T, J, W>(s: State<J, W>, call: Call<T, J, W>): (State<J, W>, Result<Execution<T>, ReceiptError>) {
    if !RequestOk(call.request, call.codec) then (s, Err(InvalidRequest))
    else
      match Lookup(s.receipts, s.bindings, call.request)
      case Err(e) => (s, Err(e))
      case Ok(None) => RunNew(s, call)
      case Ok(Some(r)) =>
        if r >= |s.receipts| then (s, Err(Corrupt))
        else
          match Replay(s.receipts[r], call.request, call.codec)
          case Err(e) => (s, Err(e))
          case Ok(value) =>
            (s.(bindings := Bind(s.bindings, call.request, s.receipts[r].id)),
             Ok(Execution(value, true, s.receipts[r].id)))
  }

  // ----- what every state keeps -----

  /** A stored receipt is complete. */
  predicate Complete<J>(receipt: Receipt<J>) {
    receipt.status == Succeeded && receipt.resultVersion.Some? && receipt.result.Some?
  }

  predicate SameIdentity<J>(a: Receipt<J>, b: Receipt<J>) {
    a.scope == b.scope && a.identity == b.identity && a.identity.Some?
  }

  predicate Points<J>(receipts: seq<Receipt<J>>, bindings: seq<Binding>, b: nat, r: nat) {
    && b < |bindings| && r < |receipts|
    && receipts[r].id == bindings[b].receipt && receipts[r].scope == bindings[b].scope
  }

  ghost predicate HasReceipt<J>(receipts: seq<Receipt<J>>, bindings: seq<Binding>, b: nat) {
    exists r: nat :: Points(receipts, bindings, b, r)
  }

  ghost predicate HasBinding<J>(receipts: seq<Receipt<J>>, bindings: seq<Binding>, r: nat) {
    exists b: nat :: Points(receipts, bindings, b, r)
  }

  ghost predicate ReceiptsSound<J>(receipts: seq<Receipt<J>>) {
    && (forall r: nat :: r < |receipts| ==> Complete(receipts[r]))
    && (forall r: nat, q: nat :: r < q < |receipts| ==>
          receipts[r].id != receipts[q].id && !SameIdentity(receipts[r], receipts[q]))
  }

  ghost predicate BindingsSound<J>(receipts: seq<Receipt<J>>, bindings: seq<Binding>) {
    && (forall a: nat, b: nat :: a < b < |bindings| ==>
          bindings[a].scope != bindings[b].scope || bindings[a].key != bindings[b].key)
    && (forall b: nat :: b < |bindings| ==> HasReceipt(receipts, bindings, b))
    && (forall r: nat :: r < |receipts| ==> HasBinding(receipts, bindings, r))
  }

  /** Receipts are complete and told apart by id and by identity; the bindings are a
      function from keys onto the receipts, each to a receipt of its own scope. */
  ghost predicate Sound<J, W>(s: State<J, W>) {
    ReceiptsSound(s.receipts) && BindingsSound(s.receipts, s.bindings)
  }

  /** The uuid of the call names no receipt yet. */
  ghost predicate FreshId<J>(receipts: seq<Receipt<J>>, id: nat) {
    forall r: nat :: r < |receipts| ==> receipts[r].id != id
  }
}
