/**
 * The label decoding of the `ContainerInfo` component
 * (frontend/src/components/ContainerInfo.tsx): a container's numeric id is
 * rendered in decimal and split into characters; the first selects a role,
 * the second a network, the third an instance. Also the status colour class
 * and the short host name shown as the card's title.
 *
 * A JavaScript `undefined` (a missing table entry or a missing character) is
 * `None`.
 */
module ContainerInfo {
  import opened Wrappers

  predicate IsDigit(c: char) {
    '0' <= c <= '9'
  }

  function DigitChar(d: nat): (c: char)
    requires d < 10
    ensures IsDigit(c)
  {
    ('0' as int + d) as char
  }

  function DigitValue(c: char): (d: nat)
    requires IsDigit(c)
    ensures d < 10 && DigitChar(d) == c
  {
    c as int - '0' as int
  }

  /** `String(n)` for a non-negative integer: its decimal digits, without leading zeros. */
  function DecimalDigits(n: nat): (s: string)
    ensures 0 < |s|
    ensures forall i :: 0 <= i < |s| ==> IsDigit(s[i])
    ensures |s| > 1 ==> s[0] != '0'
    decreases n
  {
    if n < 10 then [DigitChar(n)] else DecimalDigits(n / 10) + [DigitChar(n % 10)]
  }

  /** The value a string of decimal digits denotes; the reference the rendering is checked against. */
  function DecimalValue(s: string): nat
    requires forall i :: 0 <= i < |s| ==> IsDigit(s[i])
    decreases |s|
  {
    if s == [] then 0 else DecimalValue(s[..|s| - 1]) * 10 + DigitValue(s[|s| - 1])
  }

  /** Reading the rendered digits back gives the number: the rendering loses nothing. */
  lemma {:induction false} DecimalRoundTrip(n: nat)
    ensures DecimalValue(DecimalDigits(n)) == n
    decreases n
  {
    var s := DecimalDigits(n);
    if n >= 10 {
      DecimalRoundTrip(n / 10);
      assert s[..|s| - 1] == DecimalDigits(n / 10);
      assert DigitValue(s[|s| - 1]) == n % 10;
    } else {
      assert s[..0] == [];
    }
  }

  /** `String(props.container.id)` (line 89). */
  function IdText(id: int): (s: string)
    ensures 0 < |s|
    ensures id < 0 <==> s[0] == '-'
    ensures id >= 0 ==> s == DecimalDigits(id)
    ensures id < 0 ==> s == "-" + DecimalDigits(-id)
  {
    if id < 0 then "-" + DecimalDigits(-id) else DecimalDigits(id)
  }

  /** One element of `split('')` destructured by position: `undefined` past the end. */
  function CharAt(s: string, i: nat): (r: Option<char>)
    ensures r.Some? <==> i < |s|
    ensures r.Some? ==> r.value == s[i]
  {
    if i < |s| then Some(s[i]) else None
  }

  /** The role table of lines 37-44, read as the `roleMapping` that line 91 looks up. */
  function Role(first: Option<char>): (r: Option<string>)
    ensures r.Some? <==> first.Some? && '1' <= first.value <= '6'
  {
    match first
    case Some('1') => Some("Validator")
    case Some('2') => Some("Bootnode")
    case Some('3') => Some("RPC Endpoint")
    case Some('4') => Some("Collator")
    case Some('5') => Some("Bootnode")
    case Some('6') => Some("RPC Endpoint")
    case _ => None
  }

  /** `primaryNetworks` (lines 47-51). */
  function PrimaryNetwork(second: Option<char>): (r: Option<string>)
    ensures r.Some? <==> second.Some? && '1' <= second.value <= '3'
  {
    match second
    case Some('1') => Some("Polkadot")
    case Some('2') => Some("Kusama")
    case Some('3') => Some("Westend")
    case _ => None
  }

  /** `parachains` (lines 54-65). */
  function Parachain(second: Option<char>): (r: Option<string>)
    ensures r.Some? <==> second.Some? && IsDigit(second.value)
  {
    match second
    case Some('0') => Some("Encointer")
    case Some('1') => Some("Polkadot Asset Hub")
    case Some('2') => Some("Kusama Asset Hub")
    case Some('3') => Some("Westend Asset Hub")
    case Some('4') => Some("Polkadot Bridge Hub")
    case Some('5') => Some("Kusama Bridge Hub")
    case Some('6') => Some("Westend Bridge Hub")
    case Some('7') => Some("Polkadot Collectives Hub")
    case Some('8') => Some("Kusama Collectives Hub")
    case Some('9') => Some("Westend Collectives Hub")
    case _ => None
  }

  /** `['1', '2', '3'].includes(firstDigit)` (line 94). */
  predicate IsPrimary(first: Option<char>) {
    first == Some('1') || first == Some('2') || first == Some('3')
  }

  /** Lines 93-98: the first character chooses the table the second is looked up in. */
  function Network(first: Option<char>, second: Option<char>): (r: Option<string>)
    ensures r.Some? <==>
      second.Some? && (if IsPrimary(first) then '1' <= second.value <= '3' else IsDigit(second.value))
    ensures IsPrimary(first) && r.Some? ==> r.value in {"Polkadot", "Kusama", "Westend"}
  {
    if IsPrimary(first) then PrimaryNetwork(second) else Parachain(second)
  }

  /** Line 100: `'0'` is shown as `'00'`, any other character as itself. */
  function Instance(third: Option<char>): (r: Option<string>)
    ensures r.None? <==> third.None?
    ensures r == Some("00") <==> third == Some('0')
    ensures third.Some? && third.value != '0' ==> r == Some([third.value])
  {
    match third
    case None => None
    case Some(c) => if c == '0' then Some("00") else Some([c])
  }

  /** What the component decodes from an id. */
  datatype Decoded = Decoded(role: Option<string>, network: Option<string>, instance: Option<string>)

  /** The rendering has a second character from 10 (or -1) on, and a third from 100 (or -10) on. */
  lemma DecimalLength(n: nat)
    ensures |DecimalDigits(n)| >= 2 <==> n >= 10
    ensures |DecimalDigits(n)| >= 3 <==> n >= 100
  {
    if n >= 10 {
      if n < 100 {
        assert DecimalDigits(n / 10) == [DigitChar(n / 10)];
      } else {
        assert |DecimalDigits(n / 10)| >= 2 by {
          assert DecimalDigits(n / 10) == DecimalDigits(n / 100) + [DigitChar(n / 10 % 10)];
        }
      }
    }
  }

  /**
   * Lines 89-100. Only a positive id can name a role (a role digit is never
   * `'0'` or `'-'`), and the instance is defined exactly when the id's text
   * has a third character.
   */
  function Decode(id: int): (d: Decoded)
    ensures d.role.Some? ==> id > 0
    ensures d.instance.Some? <==> id >= 100 || id <= -10
  {
    DecimalLength(if id < 0 then -id else id);
    var s := IdText(id);
    var first, second, third := CharAt(s, 0), CharAt(s, 1), CharAt(s, 2);
    Decoded(Role(first), Network(first, second), Instance(third))
  }

  /** A template-literal interpolation: `undefined` is rendered as the word. */
  function Interpolate(v: Option<string>): string {
    match v
    case Some(x) => x
    case None => "undefined"
  }

  /**
   * Line 105: `{network && role && <p>...</p>}`. Every defined table entry
   * is a non-empty, hence truthy, string, so the line is shown exactly when
   * both are defined.
   */
  function LabelLine(d: Decoded): (r: Option<string>)
    ensures r.Some? <==> d.network.Some? && d.role.Some?
    ensures r.Some? ==> r.value == d.network.value + " " + d.role.value + " " + Interpolate(d.instance)
  {
    if d.network.Some? && d.role.Some? then
      Some(d.network.value + " " + d.role.value + " " + Interpolate(d.instance))
    else None
  }

  /** For a three-digit id, the three characters are its hundreds, tens and units digits. */
  lemma ThreeDigitId(id: int)
    requires 100 <= id < 1000
    ensures IdText(id) == [DigitChar(id / 100), DigitChar(id / 10 % 10), DigitChar(id % 10)]
  {
    assert DecimalDigits(id / 100) == [DigitChar(id / 100)];
    assert DecimalDigits(id / 10) == [DigitChar(id / 100)] + [DigitChar(id / 10 % 10)];
  }

  /**
   * A three-digit id is labelled exactly when its first digit is 1-3 and its
   * second 1-3 (a primary network), or its first digit is 4-6 (any second
   * digit names a parachain).
   */
  lemma {:induction false} ThreeDigitLabel(id: int)
    requires 100 <= id < 1000
    ensures var h, t := id / 100, id / 10 % 10;
      LabelLine(Decode(id)).Some? <==> (1 <= h <= 3 && 1 <= t <= 3) || (4 <= h <= 6)
    ensures Decode(id).instance == Instance(Some(DigitChar(id % 10)))
  {
    ThreeDigitId(id);
    var s := IdText(id);
    var h, t := id / 100, id / 10 % 10;
    assert CharAt(s, 0) == Some(DigitChar(h)) && CharAt(s, 1) == Some(DigitChar(t));
    assert IsPrimary(Some(DigitChar(h))) <==> 1 <= h <= 3;
    assert '1' <= DigitChar(h) <= '6' <==> 1 <= h <= 6;
    assert '1' <= DigitChar(t) <= '3' <==> 1 <= t <= 3;
  }

  /** Two ids as the card labels them: a primary-network validator, and a parachain collator whose instance `'0'` is shown as `00`. */
  lemma LabelExamples()
    ensures LabelLine(Decode(111)) == Some("Polkadot Validator 1")
    ensures LabelLine(Decode(420)) == Some("Kusama Asset Hub Collator 00")
  {
    ThreeDigitId(111);
    assert IdText(111) == "111";
    var d := Decode(111);
    assert d == Decoded(Some("Validator"), Some("Polkadot"), Some("1"));
    assert "Polkadot" + " " + "Validator" + " " + "1" == "Polkadot Validator 1";
    ThreeDigitId(420);
    assert IdText(420) == "420";
    var d' := Decode(420);
    assert d' == Decoded(Some("Collator"), Some("Kusama Asset Hub"), Some("00"));
    assert "Kusama Asset Hub" + " " + "Collator" + " " + "00" == "Kusama Asset Hub Collator 00";
  }

  /** Outside the primary range, every decimal second digit names a network. */
  lemma ParachainCoversDigits(first: Option<char>, second: char)
    requires !IsPrimary(first) && IsDigit(second)
    ensures Network(first, Some(second)).Some?
  {
  }

  /** A negative id starts with `'-'`, which names no role, so it is never labelled. */
  lemma NegativeIdUnlabelled(id: int)
    requires id < 0
    ensures Decode(id).role.None?
    ensures LabelLine(Decode(id)).None?
  {
  }

  /** `statusClass` (line 87). */
  function StatusClass(status: string): (r: string)
    ensures r == "bg-hex-AECE4B" <==> status == "running"
    ensures r != "bg-hex-AECE4B" ==> r == "bg-red"
  {
    if status == "running" then "bg-hex-AECE4B" else "bg-red"
  }

  /** Index of the first `'.'`, or `|s|` when there is none. */
  function FirstDot(s: string): (k: nat)
    ensures k <= |s|
    ensures forall i :: 0 <= i < k ==> s[i] != '.'
    ensures k < |s| ==> s[k] == '.'
    decreases |s|
  {
    if s == [] || s[0] == '.' then 0 else 1 + FirstDot(s[1..])
  }

  /** `hostname.split('.')[0]` (line 104): the part before the first dot, the whole name when there is none. */
  function ShortName(hostname: string): (r: string)
    ensures r <= hostname
    ensures '.' !in r
    ensures |r| < |hostname| ==> hostname[|r|] == '.'
  {
    hostname[..FirstDot(hostname)]
  }

  /** The short name of `short + "." + rest` is `short`, whatever `rest` holds. */
  lemma ShortNameOfDotted(short: string, rest: string)
    requires '.' !in short
    ensures ShortName(short + "." + rest) == short
  {
    var h := short + "." + rest;
    var r := ShortName(h);
    assert h[|short|] == '.';
    assert r == h[..|short|] == short;
  }

  /** The exception a JavaScript identifier lookup raises when the name is bound nowhere. */
  datatype JsError = ReferenceError(name: string)

  /**
   * The component as written: the module-level `role` (lines 37-44) indexes
   * its table by `firstDigit`, which is bound nowhere at module scope, so
   * loading the module raises before any card is rendered; line 91 would in
   * turn look up the unbound `roleMapping`. Every id therefore renders no
   * label at all.
   */
  function LabelAsWritten(id: int): (r: Result<Option<string>, JsError>)
    ensures r.Failure? && r.error.name == "firstDigit"
  {
    Failure(ReferenceError("firstDigit"))
  }

  /** An id the intended decoding labels, for which the code as written raises instead. */
  lemma RoleLookupDiscrepancy()
    ensures LabelAsWritten(111).Failure?
    ensures LabelLine(Decode(111)) == Some("Polkadot Validator 1")
  {
    LabelExamples();
  }
}
