/** When a command is refused, in the columns of the tables and the fields of the request. */
module CommandReceiptColumns {
  import opened Outcomes
  import opened Digests
  import opened CommandReceipts
  import opened CommandReceiptRuns

  /** The request refers to receipt r: by its key or by an identity that is not empty. */
  predicate RefersTo<J, W>(s: State<J, W>, request: Request, r: nat) {
    r < |s.receipts| && (ByKey(s, request, s.receipts[r].id) || ByIdentity(s.receipts[r], request))
  }

  predicate ByKey<J, W>(s: State<J, W>, request: Request, id: nat) {
    exists b :: 0 <= b < |s.bindings| && s.bindings[b].scope == request.scope && s.bindings[b].key == request.key
             && s.bindings[b].receipt == id
  }

  predicate ByIdentity<J>(receipt: Receipt<J>, request: Request) {
    receipt.scope == request.scope && receipt.identity == request.identity && request.identity !in {None, Some("")}
  }

  predicate DiffersFrom<J>(receipt: Receipt<J>, request: Request) {
    receipt.identity != request.identity || receipt.version != request.version || receipt.digest != request.digest
  }

  /** A request is invalid exactly without a key or a command, with a digest of another length,
      or with a version below one. */
  lemma {:induction false} InvalidExactly<T, J, W>(s: State<J, W>, call: Call<T, J, W>)
    requires Sound(s)
    ensures var request := call.request;
      Execute(s, call).1 == Err(InvalidRequest)
      <==> request.key == "" || request.scope.command == "" || |request.digest| != 64
           || request.version < 1 || call.codec.version < 1
  {
    LookupFinds(s, call.request);
  }

  /** A lookup finds the one receipt the request refers to, unless it refers to two. */
  lemma {:induction false} LookupExactly<J, W>(s: State<J, W>, request: Request)
    requires Sound(s)
    ensures match Lookup(s.receipts, s.bindings, request)
            case Err(e) =>
              e == Conflict && exists r: nat :: RefersTo(s, request, r) && s.receipts[r].identity != request.identity
            case Ok(None) => forall r: nat :: !RefersTo(s, request, r)
            case Ok(Some(r)) => RefersTo(s, request, r) && forall q: nat :: RefersTo(s, request, q) ==> q == r
  {
    LookupFinds(s, request);
    BindingFound(s.bindings, request);
    IdentityFound(s.receipts, request);
    if FindBinding(s.bindings, request).Some? {
      var r := KeyLeadsToReceipt(s, request, FindBinding(s.bindings, request).value);
      assert RefersTo(s, request, r);
    }
  }

  /** A valid request conflicts exactly when a receipt it refers to differs from it in the
      identity, the version or the digest. */
  lemma {:induction false} ConflictExactly<T, J, W>(s: State<J, W>, call: Call<T, J, W>)
    requires Sound(s)
    ensures var request := call.request;
      Execute(s, call).1 == Err(Conflict)
      <==> Execute(s, call).1 != Err(InvalidRequest)
           && exists r: nat :: RefersTo(s, request, r) && DiffersFrom(s.receipts[r], request)
  {
    LookupExactly(s, call.request);
  }

  predicate IsHexText(text: string) {
    forall k :: 0 <= k < |text| ==> text[k] in "0123456789abcdef"
  }

  lemma {:induction false} DigestByDigits(text: string)
    ensures IsDigest(text) <==> |text| == 64 && IsHexText(text)
  {
    var units := seq(|text|, k requires 0 <= k < |text| => text[k] as int);
    assert forall k :: 0 <= k < |text| ==> units[k] == text[k] as int;
    forall k | 0 <= k < |text| ensures IsHexUnit(units[k]) <==> text[k] in "0123456789abcdef" { HexDigit(text[k]); }
  }

  lemma {:induction false} HexDigit(c: char)
    ensures IsHexUnit(c as int) <==> c in "0123456789abcdef"
  {
    var digits, n := "0123456789abcdef", c as int;
    if '0' as int <= n <= '9' as int {
      assert digits[n - '0' as int] == c;
    } else if 'a' as int <= n <= 'f' as int {
      assert digits[n - 'a' as int + 10] == c;
    }
  }

  /** The table refuses a new receipt exactly for a digest that is not lower-case hexadecimal,
      and for an empty identity the scope already holds. */
  lemma {:induction false} ViolationsExactly<T, J, W>(s: State<J, W>, call: Call<T, J, W>)
    requires Sound(s)
    ensures var request, answer := call.request, Execute(s, call).1;
      && (answer == Err(CheckViolation) <==>
            answer != Err(InvalidRequest) && !IsHexText(request.digest) && !exists r: nat :: RefersTo(s, request, r))
      && (answer == Err(UniqueViolation) <==>
            answer != Err(InvalidRequest) && IsHexText(request.digest) && (!exists r: nat :: RefersTo(s, request, r))
            && exists r :: 0 <= r < |s.receipts| && s.receipts[r].scope == request.scope
                        && s.receipts[r].identity == request.identity == Some(""))
  {
    LookupExactly(s, call.request);
    DigestByDigits(call.request.digest);
    IdentityFound(s.receipts, call.request);
  }
}
