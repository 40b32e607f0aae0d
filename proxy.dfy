/**
  The Connect form of the proxy window (src/app/mods/proxy.rs): three text
  inputs become the API address, port and secret of the window, and the
  window switches to the remote project once all three are set. The port is
  read with Rust's `usize::from_str` on a 64-bit target.
*/
module Proxy {
  import opened Wrappers

  /** `usize::MAX` on a 64-bit target. */
  const UsizeMax: nat := 0x1_0000_0000_0000_0000 - 1

  /** The port used when the port input does not parse. */
  const DefaultPort: nat := 8443

  predicate IsDigit(c: char)
  {
    '0' <= c <= '9'
  }

  predicate AllDigits(s: string)
  {
    forall i :: 0 <= i < |s| ==> IsDigit(s[i])
  }

  /** The decimal value of a digit string, most significant digit first. */
  function DigitsValue(s: string): nat
    requires AllDigits(s)
  {
    if s == [] then 0
    else DigitsValue(s[..|s| - 1]) * 10 + (s[|s| - 1] as int - '0' as int)
  }

  /**
    `usize::from_str`: an optional `+`, then at least one ASCII digit and
    nothing else; a value above `usize::MAX` is an overflow error.
  */
  function ParseUsize(s: string): (r: Option<nat>)
    ensures r.Some? ==> r.value <= UsizeMax
    ensures s == "" || s == "+" ==> r.None?
  {
    var digits := if |s| > 0 && s[0] == '+' then s[1..] else s;
    if digits == [] || !AllDigits(digits) then None
    else
      var v := DigitsValue(digits);
      if v <= UsizeMax then Some(v) else None
  }

  /** The decimal text of `n`, without leading zeros. */
  function ShowNat(n: nat): (s: string)
    ensures |s| >= 1 && AllDigits(s) && s[0] != '+'
    ensures n >= 10 ==> s[0] != '0'
  {
    if n < 10 then ['0' + n as char]
    else ShowNat(n / 10) + ['0' + (n % 10) as char]
  }

  /** Reading a written number gives it back. */
  lemma {:induction false} DigitsValueShowNat(n: nat)
    ensures DigitsValue(ShowNat(n)) == n
  {
    if n >= 10 {
      DigitsValueShowNat(n / 10);
      var s := ShowNat(n);
      assert s[..|s| - 1] == ShowNat(n / 10);
    }
  }

  /** Every port a `usize` can hold parses back, with or without a leading `+`. */
  lemma {:induction false} ParseShowNat(n: nat)
    requires n <= UsizeMax
    ensures ParseUsize(ShowNat(n)) == Some(n)
    ensures ParseUsize("+" + ShowNat(n)) == Some(n)
  {
    DigitsValueShowNat(n);
    assert ("+" + ShowNat(n))[1..] == ShowNat(n);
  }

  /** One past `usize::MAX` overflows. */
  lemma {:induction false} ParseOverflow()
    ensures ParseUsize(ShowNat(UsizeMax + 1)).None?
  {
    DigitsValueShowNat(UsizeMax + 1);
  }

  /** The address and the secret: `Some(input)` unless the input is empty. */
  function NonEmpty(input: string): (r: Option<string>)
    ensures r.None? <==> input == ""
    ensures r.Some? ==> r.value == input
  {
    if input != "" then Some(input) else None
  }

  /** The port: `None` for an empty input, the parsed value, or 8443 when it does not parse. */
  function PortOf(input: string): (r: Option<nat>)
    ensures r.None? <==> input == ""
    ensures input != "" && ParseUsize(input).Some? ==> r == ParseUsize(input)
    ensures input != "" && ParseUsize(input).None? ==> r == Some(DefaultPort)
  {
    if input != "" then
      match ParseUsize(input)
      case Some(p) => Some(p)
      case None => Some(DefaultPort)
    else None
  }

  /** A port written as digits is read as itself. */
  lemma {:induction false} PortOfShown(n: nat)
    requires n <= UsizeMax
    ensures PortOf(ShowNat(n)) == Some(n)
  {
    ParseShowNat(n);
  }

  /** The window fields the Connect form sets. */
  class Window {
    var apiAddr: Option<string>
    var apiPort: Option<nat>
    var apiSecret: Option<string>
    var clicked: bool
    var isRemote: bool

    constructor ()
      ensures apiAddr == None && apiPort == None && apiSecret == None && !clicked && !isRemote
    {
      apiAddr := None;
      apiPort := None;
      apiSecret := None;
      clicked := false;
      isRemote := false;
    }

    /**
      One frame of the form. Only a Connect click or Enter (`submitted`)
      updates the fields; the flags are raised when all three are set and
      are never lowered here.
    */
    method Connect(addrInput: string, portInput: string, secretInput: string, submitted: bool)
      modifies this
      ensures !submitted ==> apiAddr == old(apiAddr) && apiPort == old(apiPort) && apiSecret == old(apiSecret)
                             && clicked == old(clicked) && isRemote == old(isRemote)
      ensures submitted ==> apiAddr == NonEmpty(addrInput) && apiPort == PortOf(portInput)
                            && apiSecret == NonEmpty(secretInput)
      ensures submitted && addrInput != "" && portInput != "" && secretInput != "" ==> clicked && isRemote
      ensures !(submitted && addrInput != "" && portInput != "" && secretInput != "") ==>
                clicked == old(clicked) && isRemote == old(isRemote)
    {
      if submitted {
        apiAddr := NonEmpty(addrInput);
        apiPort := PortOf(portInput);
        apiSecret := NonEmpty(secretInput);
        if apiAddr.Some? && apiPort.Some? && apiSecret.Some? {
          clicked := true;
          isRemote := true;
        }
      }
    }
  }
}
