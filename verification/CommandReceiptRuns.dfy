/** What holds over every run of commands: exactly one effect per receipt, and one answer
    per key and per identity. */
module CommandReceiptRuns {
  import opened Outcomes
  import opened Digests
  import opened CommandReceipts

  // ----- lookups in a sound state -----

  lemma {:induction false} BindingFound(bindings: seq<Binding>, request: Request)
    ensures match FindBinding(bindings, request)
            case Some(b) => b < |bindings| && bindings[b].scope == request.scope && bindings[b].key == request.key
            case None => forall b: nat :: b < |bindings| ==> bindings[b].scope != request.scope || bindings[b].key != request.key
  {
    var p := (i: nat) => i < |bindings| && bindings[i].scope == request.scope && bindings[i].key == request.key;
    forall b: nat | b < |bindings| && FindBinding(bindings, request).None?
      ensures bindings[b].scope != request.scope || bindings[b].key != request.key
    {
      assert !p(b);
    }
  }

  lemma {:induction false} IdentityFound<J>(receipts: seq<Receipt<J>>, request: Request)
    ensures match FindIdentity(receipts, request)
            case Some(r) => r < |receipts| && HasIdentity(receipts[r], request)
            case None => forall r: nat :: r < |receipts| ==> !HasIdentity(receipts[r], request)
  {
    var p := (i: nat) => i < |receipts| && HasIdentity(receipts[i], request);
    forall r: nat | r < |receipts| && FindIdentity(receipts, request).None? ensures !HasIdentity(receipts[r], request) {
      assert !p(r);
    }
  }

  lemma {:induction false} ReceiptFound<J>(receipts: seq<Receipt<J>>, id: nat, r: nat)
    requires ReceiptsSound(receipts) && r < |receipts| && receipts[r].id == id
    ensures FindReceipt(receipts, id) == Some(r)
  {
    var p := (i: nat) => i < |receipts| && receipts[i].id == id;
    assert p(r);
  }

  /** A bound key leads to its receipt: a binding never dangles and never leaves its scope. */
  lemma {:induction false} KeyLeadsToReceipt<J, W>(s: State<J, W>, request: Request, b: nat) returns (r: nat)
    requires Sound(s) && FindBinding(s.bindings, request) == Some(b)
    ensures Points(s.receipts, s.bindings, b, r)
    ensures FindReceipt(s.receipts, s.bindings[b].receipt) == Some(r) && s.receipts[r].scope == request.scope
  {
    BindingFound(s.bindings, request);
    assert HasReceipt(s.receipts, s.bindings, b);
    r :| Points(s.receipts, s.bindings, b, r);
    ReceiptFound(s.receipts, s.bindings[b].receipt, r);
  }

  /** The receipt a request refers to: by key, else by identity. */
  lemma {:induction false} LookupFinds<J, W>(s: State<J, W>, request: Request)
    requires Sound(s)
    ensures match Lookup(s.receipts, s.bindings, request)
            case Err(e) => e == Conflict && FindBinding(s.bindings, request).Some?
            case Ok(None) =>
              FindBinding(s.bindings, request).None? && (NamesIdentity(request) ==> FindIdentity(s.receipts, request).None?)
            case Ok(Some(r)) =>
              && r < |s.receipts| && s.receipts[r].scope == request.scope
              && (match FindBinding(s.bindings, request)
                  case Some(b) => Points(s.receipts, s.bindings, b, r)
                  case None => NamesIdentity(request) && HasIdentity(s.receipts[r], request))
  {
    IdentityFound(s.receipts, request);
    match FindBinding(s.bindings, request)
    case None =>
    case Some(b) => var r := KeyLeadsToReceipt(s, request, b);
  }

  // ----- every step keeps the tables sound -----

  lemma {:induction false} PointsStays<J>(receipts: seq<Receipt<J>>, more: seq<Receipt<J>>, bindings: seq<Binding>,
                                          extra: seq<Binding>)
    requires BindingsSound(receipts, bindings)
    ensures forall b: nat :: b < |bindings| ==> HasReceipt(receipts + more, bindings + extra, b)
    ensures forall r: nat :: r < |receipts| ==> HasBinding(receipts + more, bindings + extra, r)
  {
    forall b: nat | b < |bindings| ensures HasReceipt(receipts + more, bindings + extra, b) {
      assert HasReceipt(receipts, bindings, b);
      var r: nat :| Points(receipts, bindings, b, r);
      assert Points(receipts + more, bindings + extra, b, r);
    }
    forall r: nat | r < |receipts| ensures HasBinding(receipts + more, bindings + extra, r) {
      assert HasBinding(receipts, bindings, r);
      var b: nat :| Points(receipts, bindings, b, r);
      assert Points(receipts + more, bindings + extra, b, r);
    }
  }

  /** A new alias of a known receipt. */
  lemma {:induction false} BindKeeps<J, W>(s: State<J, W>, request: Request, r: nat)
    requires Sound(s) && FindBinding(s.bindings, request).None?
    requires r < |s.receipts| && s.receipts[r].scope == request.scope
    ensures Sound(s.(bindings := s.bindings + [Binding(request.scope, request.key, s.receipts[r].id)]))
  {
    var binding := Binding(request.scope, request.key, s.receipts[r].id);
    PointsStays(s.receipts, [], s.bindings, [binding]);
    assert s.receipts + [] == s.receipts;
    BindingFound(s.bindings, request);
    assert Points(s.receipts, s.bindings + [binding], |s.bindings|, r);
    assert HasReceipt(s.receipts, s.bindings + [binding], |s.bindings|);
  }

  lemma {:induction false} AppendReceipt<J>(receipts: seq<Receipt<J>>, receipt: Receipt<J>)
    requires ReceiptsSound(receipts) && Complete(receipt) && FreshId(receipts, receipt.id)
    requires forall r: nat :: r < |receipts| ==> !SameIdentity(receipts[r], receipt)
    ensures ReceiptsSound(receipts + [receipt])
  {
  }

  /** A new receipt with its first key. */
  lemma {:induction false} CreateKeeps<J, W>(s: State<J, W>, request: Request, receipt: Receipt<J>, world: W)
    requires Sound(s) && FindBinding(s.bindings, request).None? && InsertError(s.receipts, request).None?
    requires Complete(receipt) && FreshId(s.receipts, receipt.id)
    requires receipt.scope == request.scope && receipt.identity == request.identity
    ensures Sound(State(s.receipts + [receipt], s.bindings + [Binding(request.scope, request.key, receipt.id)], world))
  {
    var binding := Binding(request.scope, request.key, receipt.id);
    IdentityFound(s.receipts, request);
    AppendReceipt(s.receipts, receipt);
    PointsStays(s.receipts, [receipt], s.bindings, [binding]);
    BindingFound(s.bindings, request);
    assert Points(s.receipts + [receipt], s.bindings + [binding], |s.bindings|, |s.receipts|);
    assert HasReceipt(s.receipts + [receipt], s.bindings + [binding], |s.bindings|);
    assert HasBinding(s.receipts + [receipt], s.bindings + [binding], |s.receipts|);
  }

  /** The answer belongs to receipt r: same scope, identity, version and digest, the key is
      bound to it, and its stored result decodes to the value. */
  ghost predicate Serves<T, J, W>(s: State<J, W>, call: Call<T, J, W>, value: T, r: nat) {
    && r < |s.receipts| && s.receipts[r].scope == call.request.scope && Matches(s.receipts[r], call.request)
    && s.receipts[r].result.Some?
    && (call.codec.decode(s.receipts[r].result.value) == Some(value)
        || call.codec.encode(value) == s.receipts[r].result)
    && s.receipts[r].resultVersion == Some(call.codec.version)
    && FindBinding(s.bindings, call.request).Some?
    && s.bindings[FindBinding(s.bindings, call.request).value].receipt == s.receipts[r].id
  }

  /** The two ways a call succeeds, and what a failure leaves. */
  ghost predicate StepOf<T, J, W>(s: State<J, W>, call: Call<T, J, W>, after: State<J, W>,
                                  answer: Result<Execution<T>, ReceiptError>) {
    s.bindings <= after.bindings &&
    match answer
    case Err(e) => after == s
    case Ok(Execution(value, replayed, id)) =>
      RequestOk(call.request, call.codec) &&
      if replayed then
        && after.receipts == s.receipts && after.world == s.world
        && exists r: nat :: r < |s.receipts| && s.receipts[r].id == id && Serves(after, call, value, r)
      else
        && |after.receipts| == |s.receipts| + 1 && after.receipts[..|s.receipts|] == s.receipts
        && after.receipts[|s.receipts|].id == id == call.id && Serves(after, call, value, |s.receipts|)
        && call.effect(s.world) == Some((value, after.world))
        && call.codec.encode(value) == after.receipts[|s.receipts|].result && IsDigest(call.request.digest)
  }

  lemma {:induction false} NewBindingFound(bindings: seq<Binding>, request: Request, id: nat)
    requires FindBinding(bindings, request).None?
    ensures FindBinding(bindings + [Binding(request.scope, request.key, id)], request) == Some(|bindings|)
  {
    var more := bindings + [Binding(request.scope, request.key, id)];
    BindingFound(bindings, request);
    BindingFound(more, request);
    assert more[|bindings|].scope == request.scope && more[|bindings|].key == request.key;
  }

  /** Every call keeps the tables sound, and does one of three things. */
  lemma {:induction false} ExecuteKeeps<T, J, W>(s: State<J, W>, call: Call<T, J, W>)
    requires Sound(s) && FreshId(s.receipts, call.id)
    ensures var (after, answer) := Execute(s, call); Sound(after) && StepOf(s, call, after, answer)
  {
    var request := call.request;
    LookupFinds(s, request);
    match Lookup(s.receipts, s.bindings, request)
    case Err(_) =>
    case Ok(None) => if RequestOk(request, call.codec) { NewKeeps(s, call); }
    case Ok(Some(r)) =>
      if RequestOk(request, call.codec) && Replay(s.receipts[r], request, call.codec).Ok? { ReplayKeeps(s, call, r); }
  }

  lemma {:induction false} NewKeeps<T, J, W>(s: State<J, W>, call: Call<T, J, W>)
    requires Sound(s) && FreshId(s.receipts, call.id) && FindBinding(s.bindings, call.request).None?
    requires RequestOk(call.request, call.codec)
    ensures var (after, answer) := RunNew(s, call); Sound(after) && StepOf(s, call, after, answer)
  {
    var (after, answer) := RunNew(s, call);
    if answer.Ok? {
      var receipt := after.receipts[|s.receipts|];
      CreateKeeps(s, call.request, receipt, after.world);
      NewBindingFound(s.bindings, call.request, call.id);
    }
  }

  lemma {:induction false} ReplayKeeps<T, J, W>(s: State<J, W>, call: Call<T, J, W>, r: nat)
    requires Sound(s) && Lookup(s.receipts, s.bindings, call.request) == Ok(Some(r)) && RequestOk(call.request, call.codec)
    requires r < |s.receipts| && Replay(s.receipts[r], call.request, call.codec).Ok?
    ensures var (after, answer) := Execute(s, call); Sound(after) && StepOf(s, call, after, answer)
  {
    LookupFinds(s, call.request);
    var (after, answer) := Execute(s, call);
    if FindBinding(s.bindings, call.request).None? {
      BindKeeps(s, call.request, r);
      NewBindingFound(s.bindings, call.request, s.receipts[r].id);
    }
    assert Serves(after, call, answer.value.value, r);
  }

  // ----- runs -----

  /** The k-th call, the tables before it and its answer. A finite run is a prefix of one. */
  datatype Run<!T, !J, !W> = Run(
    call: nat -> Call<T, J, W>,
    state: nat -> State<J, W>,
    answer: nat -> Result<Execution<T>, ReceiptError>
  )

  ghost predicate StepAt<T, J, W>(run: Run<T, J, W>, k: nat) {
    Execute(run.state(k), run.call(k)) == (run.state(k + 1), run.answer(k))
  }

  /** The run starts with empty tables and never draws a uuid twice. */
  ghost predicate IsRun<T, J, W>(run: Run<T, J, W>) {
    && run.state(0).receipts == [] && run.state(0).bindings == []
    && (forall k: nat :: StepAt(run, k))
    && (forall i: nat, j: nat :: i < j ==> run.call(i).id != run.call(j).id)
  }

  /** Call i ran its effect for the receipt in row r. */
  ghost predicate Ran<T, J, W>(run: Run<T, J, W>, i: nat, r: nat) {
    && run.answer(i).Ok? && !run.answer(i).value.replayed && |run.state(i).receipts| == r
    && StepOf(run.state(i), run.call(i), run.state(i + 1), run.answer(i))
  }

  ghost predicate HasRun<T, J, W>(run: Run<T, J, W>, k: nat, r: nat) {
    exists i: nat :: i < k && Ran(run, i, r) && run.state(i + 1).receipts <= run.state(k).receipts
  }

  /** In every state the tables are sound, and every receipt is what one call left. */
  lemma {:induction false} StatesAreSound<T, J, W>(run: Run<T, J, W>, k: nat)
    requires IsRun(run)
    ensures Sound(run.state(k)) && FreshId(run.state(k).receipts, run.call(k).id)
    ensures StepOf(run.state(k), run.call(k), run.state(k + 1), run.answer(k))
    ensures forall r: nat :: r < |run.state(k).receipts| ==> HasRun(run, k, r)
  {
    if k > 0 {
      StatesAreSound(run, k - 1);
      assert StepAt(run, k - 1);
      ExecuteKeeps(run.state(k - 1), run.call(k - 1));
      forall r: nat | r < |run.state(k).receipts| ensures HasRun(run, k, r) { RunStays(run, k, r); }
    }
    forall r: nat | r < |run.state(k).receipts| ensures run.state(k).receipts[r].id != run.call(k).id {
      ReceiptCall(run, k, r);
    }
    assert StepAt(run, k);
    ExecuteKeeps(run.state(k), run.call(k));
  }

  lemma {:induction false} RunStays<T, J, W>(run: Run<T, J, W>, k: nat, r: nat)
    requires IsRun(run) && k > 0 && r < |run.state(k).receipts|
    requires StepOf(run.state(k - 1), run.call(k - 1), run.state(k), run.answer(k - 1))
    requires r < |run.state(k - 1).receipts| ==> HasRun(run, k - 1, r)
    ensures HasRun(run, k, r)
  {
    var before, now := run.state(k - 1).receipts, run.state(k).receipts;
    assert now[..|before|] == before;
    if r < |before| {
      assert HasRun(run, k - 1, r);
      var i: nat :| i < k - 1 && Ran(run, i, r) && run.state(i + 1).receipts <= before;
      assert before <= now;
    } else {
      assert Ran(run, k - 1, r);
    }
  }

  /** The id of a stored receipt is the uuid of the call that ran its effect. */
  lemma {:induction false} ReceiptCall<T, J, W>(run: Run<T, J, W>, k: nat, r: nat)
    requires IsRun(run) && r < |run.state(k).receipts| && HasRun(run, k, r)
    ensures run.state(k).receipts[r].id != run.call(k).id
  {
    var i: nat :| i < k && Ran(run, i, r) && run.state(i + 1).receipts <= run.state(k).receipts;
    assert run.state(k).receipts[r] == run.state(i + 1).receipts[r];
  }

  lemma {:induction false} TablesGrow<T, J, W>(run: Run<T, J, W>, i: nat, j: nat)
    requires IsRun(run) && i <= j
    ensures run.state(i).receipts <= run.state(j).receipts && run.state(i).bindings <= run.state(j).bindings
  {
    if i < j {
      TablesGrow(run, i, j - 1);
      StatesAreSound(run, j - 1);
    }
  }

  lemma {:induction false} BindingStays(bindings: seq<Binding>, more: seq<Binding>, request: Request)
    requires bindings <= more && FindBinding(bindings, request).Some?
    ensures FindBinding(more, request) == FindBinding(bindings, request)
  {
    var b := FindBinding(bindings, request).value;
    var p := (i: nat) => i < |bindings| && bindings[i].scope == request.scope && bindings[i].key == request.key;
    var q := (i: nat) => i < |more| && more[i].scope == request.scope && more[i].key == request.key;
    assert q(b);
    forall i: nat | i < b ensures !q(i) { assert !p(i); }
  }

  /** A successful call is answered from one receipt, there for good. */
  lemma {:induction false} SuccessServes<T, J, W>(run: Run<T, J, W>, i: nat, k: nat) returns (r: nat)
    requires IsRun(run) && i < k && run.answer(i).Ok?
    ensures Serves(run.state(i + 1), run.call(i), run.answer(i).value.value, r)
    ensures r < |run.state(k).receipts| && run.state(k).receipts[r] == run.state(i + 1).receipts[r]
    ensures run.state(k).receipts[r].id == run.answer(i).value.receipt
    ensures FindBinding(run.state(k).bindings, run.call(i).request) == FindBinding(run.state(i + 1).bindings, run.call(i).request)
    ensures run.state(i + 1).bindings <= run.state(k).bindings
    ensures Serves(run.state(k), run.call(i), run.answer(i).value.value, r)
    ensures !run.answer(i).value.replayed ==> r == |run.state(i).receipts|
    ensures RequestOk(run.call(i).request, run.call(i).codec)
  {
    StatesAreSound(run, i);
    var before, after, answer := run.state(i), run.state(i + 1), run.answer(i).value;
    if answer.replayed {
      r :| r < |before.receipts| && before.receipts[r].id == answer.receipt
           && Serves(after, run.call(i), answer.value, r);
    } else {
      r := |before.receipts|;
    }
    TablesGrow(run, i + 1, k);
    BindingStays(after.bindings, run.state(k).bindings, run.call(i).request);
  }

  // ----- one answer per command -----

  predicate SameCommand(a: Request, b: Request) {
    a.scope == b.scope && (a.key == b.key || (a.identity == b.identity && a.identity.Some?))
  }

  /** Two successful calls that share a key or an identity carry the same payload and are
      answered from the same receipt, the later one by replay. */
  lemma {:induction false} OneReceiptPerCommand<T, J, W>(run: Run<T, J, W>, i: nat, j: nat)
    requires IsRun(run) && i < j && run.answer(i).Ok? && run.answer(j).Ok?
    requires SameCommand(run.call(i).request, run.call(j).request)
    ensures run.answer(i).value.receipt == run.answer(j).value.receipt
    ensures run.answer(j).value.replayed
    ensures var a, b := run.call(i).request, run.call(j).request;
      a.digest == b.digest && a.version == b.version && a.identity == b.identity
  {
    var r, q := SameRow(run, i, j);
  }

  lemma {:induction false} SameRow<T, J, W>(run: Run<T, J, W>, i: nat, j: nat) returns (r: nat, q: nat)
    requires IsRun(run) && i < j && run.answer(i).Ok? && run.answer(j).Ok?
    requires SameCommand(run.call(i).request, run.call(j).request)
    ensures r == q && q < |run.state(j).receipts| && run.answer(j).value.replayed
    ensures Serves(run.state(i + 1), run.call(i), run.answer(i).value.value, r)
    ensures Serves(run.state(j + 1), run.call(j), run.answer(j).value.value, q)
    ensures run.state(i + 1).receipts[r] == run.state(j + 1).receipts[q]
    ensures run.answer(i).value.receipt == run.answer(j).value.receipt
  {
    r := SuccessServes(run, i, j + 1);
    q := SuccessServes(run, j, j + 1);
    StatesAreSound(run, j + 1);
    ServedAlike(run.state(j + 1), run.call(i), run.call(j), run.answer(i).value.value,
                run.answer(j).value.value, r, q);
    TablesGrow(run, i + 1, j);
  }

  lemma {:induction false} ServedAlike<T, J, W>(s: State<J, W>, a: Call<T, J, W>, b: Call<T, J, W>, x: T, y: T,
                                                r: nat, q: nat)
    requires Sound(s) && Serves(s, a, x, r) && Serves(s, b, y, q) && SameCommand(a.request, b.request)
    ensures r == q
  {
    if a.request.key == b.request.key {
      SameKeyFound(s.bindings, a.request, b.request);
      assert s.receipts[r].id == s.receipts[q].id;
    } else {
      assert SameIdentity(s.receipts[r], s.receipts[q]);
    }
  }

  lemma {:induction false} SameKeyFound(bindings: seq<Binding>, a: Request, b: Request)
    requires a.scope == b.scope && a.key == b.key
    ensures FindBinding(bindings, a) == FindBinding(bindings, b)
  {
    BindingFound(bindings, a);
    BindingFound(bindings, b);
    var p := (i: nat) => i < |bindings| && bindings[i].scope == a.scope && bindings[i].key == a.key;
    var q := (i: nat) => i < |bindings| && bindings[i].scope == b.scope && bindings[i].key == b.key;
    assert forall i: nat :: p(i) == q(i);
  }

  /** The reader decodes whatever the writer encodes. A codec understands itself if decoding undoes
      encoding; a new release understands an old one if it still reads what that one stored. */
  ghost predicate Understands<T(!new), J>(reader: Codec<T, J>, writer: Codec<T, J>) {
    forall value: T :: writer.encode(value).Some? ==> reader.decode(writer.encode(value).value) == Some(value)
  }

  /** The codec understands every codec of its own version that the command was called with. */
  ghost predicate ReadsVersion<T(!new), J, W>(run: Run<T, J, W>, scope: Scope, codec: Codec<T, J>) {
    forall k: nat :: run.call(k).request.scope == scope && run.call(k).codec.version == codec.version ==>
      Understands(codec, run.call(k).codec)
  }

  lemma {:induction false} ValueIsStored<T(!new), J, W>(run: Run<T, J, W>, k: nat, r: nat, m: nat)
    requires IsRun(run) && run.answer(k).Ok? && Ran(run, m, r)
    requires Serves(run.state(k + 1), run.call(k), run.answer(k).value.value, r)
    requires run.state(m + 1).receipts[r] == run.state(k + 1).receipts[r]
    requires ReadsVersion(run, run.call(k).request.scope, run.call(k).codec)
    ensures run.answer(k).value.value == run.answer(m).value.value
  {
    assert Serves(run.state(m + 1), run.call(m), run.answer(m).value.value, r);
    assert Understands(run.call(k).codec, run.call(m).codec);
    assert Understands(run.call(k).codec, run.call(k).codec);
  }

  /** The two calls return the same value, also when their codecs differ, as long as each decodes
      what codecs of its version stored. */
  lemma {:induction false} OneValuePerCommand<T(!new), J, W>(run: Run<T, J, W>, i: nat, j: nat)
    requires IsRun(run) && i < j && run.answer(i).Ok? && run.answer(j).Ok?
    requires SameCommand(run.call(i).request, run.call(j).request)
    requires ReadsVersion(run, run.call(i).request.scope, run.call(i).codec)
    requires ReadsVersion(run, run.call(j).request.scope, run.call(j).codec)
    ensures run.answer(i).value.value == run.answer(j).value.value
  {
    var r, q := SameRow(run, i, j);
    StatesAreSound(run, i + 1);
    assert HasRun(run, i + 1, r);
    var m: nat :| m < i + 1 && Ran(run, m, r) && run.state(m + 1).receipts <= run.state(i + 1).receipts;
    assert run.state(m + 1).receipts[r] == run.state(i + 1).receipts[r];
    ValueIsStored(run, i, r, m);
    ValueIsStored(run, j, q, m);
  }

  // ----- one effect per receipt -----

  /** Behind every answer stands exactly one run of the effect, whose result the receipt
      holds; every other call with that answer was a replay. */
  lemma {:induction false} OneEffectPerReceipt<T, J, W>(run: Run<T, J, W>, k: nat) returns (i: nat)
    requires IsRun(run) && run.answer(k).Ok?
    ensures i <= k && run.answer(i).Ok? && !run.answer(i).value.replayed
    ensures run.answer(i).value.receipt == run.answer(k).value.receipt
    ensures run.call(i).effect(run.state(i).world) == Some((run.answer(i).value.value, run.state(i + 1).world))
    ensures forall j: nat ::
              run.answer(j).Ok? && run.answer(j).value.receipt == run.answer(k).value.receipt ==>
                j == i || run.answer(j).value.replayed
  {
    var r := SuccessServes(run, k, k + 1);
    StatesAreSound(run, k + 1);
    assert HasRun(run, k + 1, r);
    i :| i < k + 1 && Ran(run, i, r) && run.state(i + 1).receipts <= run.state(k + 1).receipts;
    forall j: nat | run.answer(j).Ok? && run.answer(j).value.receipt == run.answer(k).value.receipt
      ensures j == i || run.answer(j).value.replayed
    {
      if !run.answer(j).value.replayed { RanOnce(run, i, j); }
    }
  }

  lemma {:induction false} RanOnce<T, J, W>(run: Run<T, J, W>, i: nat, j: nat)
    requires IsRun(run) && run.answer(i).Ok? && run.answer(j).Ok?
    requires !run.answer(i).value.replayed && !run.answer(j).value.replayed
    requires run.answer(i).value.receipt == run.answer(j).value.receipt
    ensures i == j
  {
    StatesAreSound(run, i);
    StatesAreSound(run, j);
    assert run.call(i).id == run.call(j).id;
  }

  /** A replay and a failed call leave the data the effects work on alone. */
  lemma {:induction false} OnlyEffectsChangeTheWorld<T, J, W>(run: Run<T, J, W>, k: nat)
    requires IsRun(run) && (run.answer(k).Err? || run.answer(k).value.replayed)
    ensures run.state(k + 1).world == run.state(k).world && run.state(k + 1).receipts == run.state(k).receipts
    ensures run.answer(k).Err? ==> run.state(k + 1) == run.state(k)
  {
    StatesAreSound(run, k);
  }

  // ----- which errors can happen -----

  /** The codec reads what every call of the command stores: all have its version, and it decodes
      whatever they encode. */
  ghost predicate ReadsAll<T(!new), J, W>(run: Run<T, J, W>, scope: Scope, codec: Codec<T, J>) {
    forall k: nat :: run.call(k).request.scope == scope ==>
      run.call(k).codec.version == codec.version && Understands(codec, run.call(k).codec)
  }

  lemma {:induction false} StoredByCodec<T(!new), J, W>(run: Run<T, J, W>, k: nat, r: nat, codec: Codec<T, J>)
    requires IsRun(run) && r < |run.state(k).receipts|
    requires ReadsAll(run, run.state(k).receipts[r].scope, codec)
    ensures var receipt := run.state(k).receipts[r];
      && receipt.status == Succeeded && receipt.resultVersion == Some(codec.version) && receipt.result.Some?
      && codec.decode(receipt.result.value).Some? && IsDigest(receipt.digest)
  {
    StatesAreSound(run, k);
    assert HasRun(run, k, r);
    var i: nat :| i < k && Ran(run, i, r) && run.state(i + 1).receipts <= run.state(k).receipts;
    assert Serves(run.state(i + 1), run.call(i), run.answer(i).value.value, r);
    assert Understands(codec, run.call(i).codec);
  }

  /** With codecs that read what their command stores the corrupt and incomplete branches are never
      reached, and the unique index is hit only by the empty identity. */
  lemma {:induction false} NeverCorrupt<T(!new), J, W>(run: Run<T, J, W>, k: nat)
    requires IsRun(run) && ReadsAll(run, run.call(k).request.scope, run.call(k).codec)
    ensures run.answer(k) != Err(Corrupt) && run.answer(k) != Err(Incomplete)
    ensures run.answer(k) == Err(UniqueViolation) ==> run.call(k).request.identity == Some("")
  {
    StatesAreSound(run, k);
    assert StepAt(run, k);
    var s, request := run.state(k), run.call(k).request;
    LookupFinds(s, request);
    match Lookup(s.receipts, s.bindings, request)
    case Ok(Some(r)) => StoredByCodec(run, k, r, run.call(k).codec);
    case _ =>
  }

  /** A command repeated under a fresh key with the same identity and payload is replayed if
      and only if its identity is not the empty text; the empty one runs into the index. */
  lemma {:induction false} RepeatedIdentity<T(!new), J, W>(run: Run<T, J, W>, i: nat, j: nat)
    requires IsRun(run) && i < j && run.answer(i).Ok?
    requires ReadsAll(run, run.call(j).request.scope, run.call(j).codec)
    requires RequestOk(run.call(j).request, run.call(j).codec)
    requires run.call(i).request.(key := "") == run.call(j).request.(key := "") && run.call(j).request.identity.Some?
    requires FindBinding(run.state(j).bindings, run.call(j).request).None?
    ensures run.answer(j).Ok? <==> run.call(j).request.identity != Some("")
    ensures run.answer(j).Err? ==> run.answer(j) == Err(UniqueViolation)
  {
    var r := SuccessServes(run, i, j);
    var s, request := run.state(j), run.call(j).request;
    StatesAreSound(run, j);
    assert StepAt(run, j);
    IdentityFound(s.receipts, request);
    var q := FindIdentity(s.receipts, request);
    assert HasIdentity(s.receipts[r], request);
    assert q == Some(r) by { assert r != q.value ==> SameIdentity(s.receipts[r], s.receipts[q.value]); }
    StoredByCodec(run, j, r, run.call(j).codec);
  }

  /** A command repeated under its own key is always replayed. */
  lemma {:induction false} RepeatedKey<T(!new), J, W>(run: Run<T, J, W>, i: nat, j: nat)
    requires IsRun(run) && i < j && run.answer(i).Ok? && run.call(j).request == run.call(i).request
    requires ReadsAll(run, run.call(j).request.scope, run.call(j).codec)
    ensures run.answer(j).Ok? && run.answer(j).value.replayed
  {
    var r := SuccessServes(run, i, j);
    var s, request := run.state(j), run.call(j).request;
    StatesAreSound(run, j);
    assert StepAt(run, j);
    LookupFinds(s, request);
    ReceiptFound(s.receipts, s.receipts[r].id, r);
    IdentityFound(s.receipts, request);
    if NamesIdentity(request) {
      var q := FindIdentity(s.receipts, request);
      assert HasIdentity(s.receipts[r], request);
    }
    StoredByCodec(run, j, r, run.call(j).codec);
  }

  /** The smallest such case: the same command with an empty identity, sent under two keys. */
  lemma {:induction false} EmptyIdentityIsNotReplayed<W>(world: W, digest: string)
    requires IsDigest(digest)
    ensures var codec := Codec(1, (v: int) => Some(v), (v: int) => Some(v));
      var effect := (w: W) => Some((7, w));
      var scope := Scope("tenant", "general", "command");
      var first := Call(Request(scope, Some(""), "k1", 1, digest), codec, effect, 0);
      var second := Call(Request(scope, Some(""), "k2", 1, digest), codec, effect, 1);
      var (s, answer) := Execute(State([], [], world), first);
      answer == Ok(Execution(7, false, 0)) && Execute(s, second) == (s, Err(UniqueViolation))
  {
    var scope := Scope("tenant", "general", "command");
    var request := Request(scope, Some(""), "k2", 1, digest);
    var receipt := Finished(Started(request, 0), 1, 7);
    BindingFound([Binding(scope, "k1", 0)], request);
    IdentityFound([receipt], request);
    assert HasIdentity([receipt][0], request);
  }
}
