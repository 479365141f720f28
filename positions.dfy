/**
 * The three position vocabularies of the bridge and the translations between
 * them: the command words and the bus percentage accepted on inbound topics,
 * the device percentage handed to the gateway, and the texts published back
 * on the position and closed topics.
 */
module Positions {
  import opened Options
  import opened Text

  /** The `truthy` list of the bridge. */
  const TRUTHY: seq<string> := ["true", "1", "t", "y", "yes"]

  predicate IsTruthy(s: string) {
    s in TRUTHY
  }

  /**
   * The retain flag as computed from the configured `retain` option: plain
   * membership in the truthy list, without lower-casing.
   */
  function RetainFlag(configured: string): (r: bool)
    ensures r ==> Lower(configured) == configured
  {
    configured in TRUTHY
  }

  /** The retain option is case-sensitive, unlike the `closed` payload, which is lower-cased first. */
  lemma RetainCaseSensitive()
    ensures !RetainFlag("True") && IsTruthy(Lower("True"))
  {
    assert Lower("True") == "true";
  }

  /** The payload rewrite applied on the `closed` action: "0" for truthy, "100" otherwise. */
  function ClosedRewrite(payload: string): (r: string)
    ensures Canonical(r)
    ensures r == "0" <==> IsTruthy(payload)
  {
    if payload in TRUTHY then "0" else "100"
  }

  /**
   * The device percentage requested by a command string (the payload after
   * lower-casing): "close" is first renamed "closed"; "open" asks for 100,
   * "closed" for 0, a string of ASCII digits `d` for `100 - int(d)` with no
   * range check; anything else is invalid.
   */
  function Translate(pos: string): (r: Option<int>)
    ensures r.Some? <==> pos == "open" || pos == "close" || pos == "closed" || IsDigits(pos)
    ensures pos == "open" ==> r == Some(100)
    ensures pos == "close" || pos == "closed" ==> r == Some(0)
    ensures IsDigits(pos) ==> r == Some(100 - DigitsValue(pos))
    ensures r.Some? && r.value < 0 ==> IsDigits(pos) && DigitsValue(pos) > 100
  {
    var p := if pos == "close" then "closed" else pos;
    if p == "open" then Some(100)
    else if p == "closed" then Some(0)
    else if IsDigits(p) then Some(100 - DigitsValue(p))
    else None
  }

  /** No range check: "150" asks for -50; signed, empty and other strings are invalid. */
  lemma TranslateEdgeCases()
    ensures Translate("150") == Some(-50)
    ensures Translate("") == None && Translate("-5") == None && Translate("+5") == None
    ensures Translate("abc") == None && Translate("Open") == None
  {
    assert IsDigits("150");
    assert "150"[..2] == "15" && "15"[..1] == "1";
    assert DigitsValue("150") == 150;
    assert !IsDigit('-') && !IsDigit('+') && !IsDigit('a') && !IsDigit('O');
    assert "-5"[0] == '-' && "+5"[0] == '+' && "abc"[0] == 'a' && "Open"[0] == 'O';
  }

  /** The text published on the position topic: the bus percentage `100 - pct`. */
  function PositionText(pct: int): string {
    IntToString(100 - pct)
  }

  /** The text published on the closed topic: Python's `str(pct == 0)`. */
  function ClosedText(pct: int): string {
    if pct == 0 then "True" else "False"
  }

  /**
   * Round trip through the device: a digit string translated to a device
   * percentage and published back gives the decimal text of its value, and
   * gives the very same string when it was already written canonically.
   * Leading zeros are lost ("030" comes back as "30").
   */
  lemma TranslateThenPublish(d: string)
    requires IsDigits(d)
    ensures Translate(d).Some?
    ensures PositionText(Translate(d).value) == NatToString(DigitsValue(d))
    ensures Canonical(d) ==> PositionText(Translate(d).value) == d
  {
    assert 100 - (100 - DigitsValue(d)) == DigitsValue(d);
    if Canonical(d) {
      NatToStringOfCanonical(d);
    }
  }

  /** Leading zeros are not preserved by the round trip. */
  lemma LeadingZeroRoundTrip()
    ensures Translate("030") == Some(70)
    ensures PositionText(70) == "30"
  {
    assert IsDigits("030");
    assert "030"[..2] == "03" && "03"[..1] == "0";
    assert DigitsValue("030") == 30;
    assert NatToString(3) == "3";
    assert NatToString(30) == NatToString(3) + "0";
  }

  /** The two published texts agree: closed is "True" exactly when the position text is "100". */
  lemma ClosedAgreesWithPosition(pct: int)
    ensures ClosedText(pct) == "True" <==> PositionText(pct) == "100"
  {
    var hundred := "100";
    assert IsDigits(hundred) && Canonical(hundred);
    assert hundred[..2] == "10" && "10"[..1] == "1";
    assert DigitsValue(hundred) == 100;
    NatToStringOfCanonical(hundred);
    assert IntToString(100) == hundred;
    if PositionText(pct) == hundred {
      IntToStringInjective(100 - pct, 100);
    }
  }

  /**
   * On the `closed` action the rewritten payload always translates: a truthy
   * payload ends up as device percentage 100, any other payload as 0.
   */
  lemma ClosedActionTranslation(payload: string)
    ensures Translate(ClosedRewrite(payload)) == Some(if IsTruthy(payload) then 100 else 0)
  {
    assert IsDigits("0") && DigitsValue("0") == 0;
    var hundred := "100";
    assert IsDigits(hundred);
    assert hundred[..2] == "10" && "10"[..1] == "1";
    assert DigitsValue(hundred) == 100;
  }

  /**
   * A truthy `closed` command asks for the same device percentage as "open",
   * and a device that reaches it is then published as not closed.
   */
  lemma ClosedTrueActsAsOpen(payload: string)
    requires IsTruthy(payload)
    ensures Translate(ClosedRewrite(payload)) == Translate("open")
    ensures ClosedText(Translate(ClosedRewrite(payload)).value) == "False"
  {
    ClosedActionTranslation(payload);
  }
}
