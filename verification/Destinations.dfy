/** What a smart account's call data would pay or authorise, extracted for screening. */
module Destinations {
  import opened Prelude
  import opened BigEndian

  type Address = Bytes

  /** Inner call data, decoded: fewer than four bytes, an ERC-20 call, another selector, or arguments that do not decode. */
  datatype Inner =
    | NoSelector
    | Transfer(to: Address)
    | Approve(spender: Address)
    | TransferFrom(from: Address, to: Address)
    | OtherSelector
    | BadInnerArguments

  /** Account call data, decoded. */
  datatype AccountCall =
    | Execute(dest: Address, func: Inner)
    | ExecuteBatch(dests: seq<Address>, funcs: seq<Inner>)
    | BadArguments
    | OtherFunction
    | TooShort

  datatype Call = Call(to: Address, data: Inner)

  datatype ExtractError = Unsupported | Undecodable | LengthMismatch

  /** The recipient or spender an inner call names besides its target. */
  function Parties(data: Inner): set<Address> {
    match data
    case Transfer(to) => {to}
    case Approve(spender) => {spender}
    case TransferFrom(from, to) => {from, to}
    case _ => {}
  }

  /** The calls the account would make. A batch is read target by target. */
  function CallsOf(call: AccountCall): seq<Call> {
    match call
    case Execute(dest, func) => [Call(dest, func)]
    case ExecuteBatch(dests, funcs) =>
      if |funcs| < |dests| then [] else seq(|dests|, i requires 0 <= i < |dests| => Call(dests[i], funcs[i]))
    case _ => []
  }

  /** Call data that can be screened: both functions decode, every target has its data, and the data decodes. */
  predicate IsScreenable(call: AccountCall) {
    && (call.Execute? || (call.ExecuteBatch? && |call.dests| <= |call.funcs|))
    && forall i :: 0 <= i < |CallsOf(call)| ==> CallsOf(call)[i].data != BadInnerArguments
  }

  /** Every target, and every party of a token call. */
  predicate IsDestination(call: AccountCall, a: Address) {
    exists i :: 0 <= i < |CallsOf(call)| && Names(CallsOf(call)[i], a)
  }

  predicate Names(c: Call, a: Address) { a == c.to || a in Parties(c.data) }

  predicate NoDuplicates(s: seq<Address>) { forall i, j :: 0 <= i < j < |s| ==> s[i] != s[j] }

  /** Set.add on a set that remembers insertion order. */
  function Added(out: seq<Address>, a: Address): (r: seq<Address>)
    requires NoDuplicates(out)
    ensures NoDuplicates(r) && out <= r
    ensures forall b :: b in r <==> b in out || b == a
  {
    if a in out then out else out + [a]
  }

  /** The body of the loop: a call's target, then its parties. */
  method AddCall(out: seq<Address>, c: Call) returns (r: Option<seq<Address>>)
    requires NoDuplicates(out)
    ensures r.Some? <==> c.data != BadInnerArguments
    ensures r.Some? ==> NoDuplicates(r.value) && out <= r.value && forall a :: a in r.value <==> a in out || Names(c, a)
    ensures r.Some? && out == [] ==> r.value != [] && r.value[0] == c.to
  {
    var all := Added(out, c.to);
    match c.data {
      case Transfer(to) => all := Added(all, to);
      case Approve(spender) => all := Added(all, spender);
      case TransferFrom(from, to) =>
        all := Added(all, from);
        all := Added(all, to);
      case BadInnerArguments =>
        return None;
      case _ =>
    }
    return Some(all);
  }

  /** The destinations, each once, the first call's target first; or an error exactly when something cannot be read. */
  method ExtractDestinations(call: AccountCall) returns (r: Result<seq<Address>, ExtractError>)
    ensures r.Ok? <==> IsScreenable(call)
    ensures r.Ok? ==> NoDuplicates(r.value) && forall a :: a in r.value <==> IsDestination(call, a)
    ensures r.Ok? && CallsOf(call) != [] ==> r.value != [] && r.value[0] == CallsOf(call)[0].to
  {
    var calls: seq<Call>;
    match call {
      case Execute(dest, func) =>
        calls := [Call(dest, func)];
      case ExecuteBatch(dests, funcs) =>
        if |funcs| < |dests| {
          return Err(LengthMismatch);
        }
        calls := seq(|dests|, i requires 0 <= i < |dests| => Call(dests[i], funcs[i]));
      case BadArguments =>
        return Err(Undecodable);
      case _ =>
        return Err(Unsupported);
    }
    assert calls == CallsOf(call);
    var out: seq<Address> := [];
    for k := 0 to |calls|
      invariant NoDuplicates(out)
      invariant forall a :: a in out <==> exists i :: 0 <= i < k && Names(calls[i], a)
      invariant forall i :: 0 <= i < k ==> calls[i].data != BadInnerArguments
      invariant k == 0 ==> out == []
      invariant k > 0 ==> out != [] && out[0] == calls[0].to
    {
      var next := AddCall(out, calls[k]);
      if next.None? {
        assert CallsOf(call)[k].data == BadInnerArguments;
        return Err(Undecodable);
      }
      out := next.value;
    }
    return Ok(out);
  }
}
