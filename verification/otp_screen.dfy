/** The code-entry screen (`OTPScreen`): six one-character slots, a countdown
    that enables resending, automatic verification once six digits are in, and
    the `MM:SS` rendering of the countdown. Timer ticks, network answers and key
    presses are the inputs of pure transition functions. */
module OtpScreen {
  import opened Common

  const SlotCount: nat := 6
  const DefaultTimer: int := 300
  const InvalidCodeDefault := "Le code saisi est incorrect ou expiré. Veuillez réessayer."

  datatype OtpForm = OtpForm(slots: seq<string>, timer: int, canResend: bool)

  function EmptySlots(): (r: seq<string>)
    ensures |r| == SlotCount && forall i :: 0 <= i < |r| ==> r[i] == ""
  {
    ["", "", "", "", "", ""]
  }

  /** `expiresIn || 300`: a missing or zero lifetime falls back to five minutes. */
  function InitialTimer(expiresIn: Option<int>): (t: int)
    ensures t != 0
    ensures expiresIn.Some? && expiresIn.value != 0 ==> t == expiresIn.value
  {
    if expiresIn.None? || expiresIn.value == 0 then DefaultTimer else expiresIn.value
  }

  function Initial(expiresIn: Option<int>): (f: OtpForm)
    ensures |f.slots| == SlotCount && !f.canResend
  {
    OtpForm(EmptySlots(), InitialTimer(expiresIn), false)
  }

  // ---------------------------------------------------------------------------
  // Slots

  /** A change in slot `index`: a value that is not a run of ASCII digits is
      ignored; any run of digits, the empty one included, replaces that slot
      alone. */
  function HandleOtpChange(slots: seq<string>, value: string, index: nat): (r: seq<string>)
    requires index < |slots|
    ensures |r| == |slots|
    ensures !AllDigits(value) ==> r == slots
    ensures AllDigits(value) ==> r[index] == value
    ensures forall j :: 0 <= j < |slots| && j != index ==> r[j] == slots[j]
  {
    if !AllDigits(value) then slots else slots[index := value]
  }

  /** `otp.join('')`. */
  function Join(slots: seq<string>): (r: string)
    ensures |r| == TotalLength(slots)
  {
    if slots == [] then "" else slots[0] + Join(slots[1..])
  }

  function TotalLength(slots: seq<string>): nat {
    if slots == [] then 0 else |slots[0]| + TotalLength(slots[1..])
  }

  /** The screen submits the code as soon as the joined slots are six long. */
  predicate ShouldVerify(slots: seq<string>) {
    |Join(slots)| == SlotCount
  }

  /** With one character at most per slot (the field's maximum length), the code
      is submitted exactly when all six slots are filled. */
  lemma VerifiesWhenAllFilled(slots: seq<string>)
    requires |slots| == SlotCount
    requires forall i :: 0 <= i < |slots| ==> |slots[i]| <= 1
    ensures ShouldVerify(slots) <==> forall i :: 0 <= i < |slots| ==> slots[i] != ""
  {
    FilledCount(slots);
  }

  lemma {:induction false} FilledCount(slots: seq<string>)
    requires forall i :: 0 <= i < |slots| ==> |slots[i]| <= 1
    ensures TotalLength(slots) <= |slots|
    ensures TotalLength(slots) == |slots| <==> forall i :: 0 <= i < |slots| ==> slots[i] != ""
  {
    if slots != [] {
      FilledCount(slots[1..]);
      if slots[0] != "" {
        assert forall i :: 1 <= i < |slots| ==> slots[i] == slots[1..][i - 1];
      }
    }
  }

  // ---------------------------------------------------------------------------
  // Countdown

  /** One second: the count goes down by one, and on reaching (or being at or
      below) one it becomes zero and resending is enabled. */
  function Tick(f: OtpForm): (g: OtpForm)
    ensures g.slots == f.slots
    ensures g.timer >= 0
    ensures f.timer > 1 ==> g.timer == f.timer - 1 && g.canResend == f.canResend
    ensures f.timer <= 1 ==> g.timer == 0 && g.canResend
  {
    if f.timer <= 1 then f.(timer := 0, canResend := true)
    else f.(timer := f.timer - 1)
  }

  function Ticks(f: OtpForm, n: nat): OtpForm
    decreases n
  {
    if n == 0 then f else Ticks(Tick(f), n - 1)
  }

  function Max(a: int, b: int): int {
    if a >= b then a else b
  }

  /** After n seconds the count is its start minus n, never below zero, and
      resending is enabled once the count has run out. */
  lemma {:induction false} TicksCountDown(f: OtpForm, n: nat)
    requires n >= 1
    ensures Ticks(f, n).timer == Max(f.timer - n, 0)
    ensures Ticks(f, n).canResend <==> f.canResend || n >= f.timer
    ensures Ticks(f, n).slots == f.slots
    decreases n
  {
    if n > 1 {
      TicksCountDown(Tick(f), n - 1);
    }
  }

  // ---------------------------------------------------------------------------
  // Resending and failures

  datatype ResendEffect = NoRequest | Sent | SendFailed

  /** Resending does nothing until allowed; a successful resend restarts the
      countdown at five minutes and disables resending again; a failed one only
      shows an alert. */
  function Resend(f: OtpForm, requestSucceeds: bool): (r: (OtpForm, ResendEffect))
    ensures !f.canResend ==> r == (f, NoRequest)
    ensures f.canResend && requestSucceeds ==> r == (f.(timer := DefaultTimer, canResend := false), Sent)
    ensures f.canResend && !requestSucceeds ==> r == (f, SendFailed)
    ensures r.0.slots == f.slots
  {
    if !f.canResend then (f, NoRequest)
    else if requestSucceeds then (f.(timer := DefaultTimer, canResend := false), Sent)
    else (f, SendFailed)
  }

  /** A rejected code clears all six slots; the alert shows the server's message,
      or a fixed text when there is none. */
  function OnVerifyFailed(f: OtpForm, serverMessage: Option<string>): (r: (OtpForm, string))
    ensures r.0.slots == EmptySlots() && r.0.timer == f.timer && r.0.canResend == f.canResend
    ensures !ShouldVerify(r.0.slots)
    ensures r.1 != ""
    ensures serverMessage.Some? && serverMessage.value != "" ==> r.1 == serverMessage.value
  {
    assert Join(EmptySlots()) == "";
    (f.(slots := EmptySlots()),
     if serverMessage.Some? && serverMessage.value != "" then serverMessage.value else InvalidCodeDefault)
  }

  // ---------------------------------------------------------------------------
  // MM:SS

  /** `Number.prototype.toString` on an integer. */
  function IntToString(i: int): string {
    if i >= 0 then NatToString(i) else "-" + NatToString(-i)
  }

  /** The `%` of JavaScript, whose result takes the sign of the dividend. */
  function JsRem(a: int, b: int): (r: int)
    requires b > 0
    ensures a >= 0 ==> r == a % b
    ensures -b < r < b
    ensures a < 0 ==> r <= 0
  {
    if a >= 0 then a % b else -((-a) % b)
  }

  /** `pad2(floor(s / 60)) + ':' + pad2(s % 60)`; for a negative count the minutes
      are rounded down and the seconds keep the count's sign. */
  function FormatTime(seconds: int): string {
    Pad2(IntToString(seconds / 60)) + ":" + Pad2(IntToString(JsRem(seconds, 60)))
  }

  lemma Pad2RoundTrip(n: nat)
    requires n < 100
    ensures |Pad2(NatToString(n))| == 2
    ensures AllDigits(Pad2(NatToString(n)))
    ensures ParseNat(Pad2(NatToString(n))) == n
  {
    if n < 10 {
      var d := NatToString(n);
      assert Pad2(d) == "0" + d;
      assert Pad2(d)[..1] == "0";
      assert ParseNat("0") == 0;
    } else {
      assert Pow10(1) == 10 && Pow10(2) == 100;
      NatToStringLength(n, 2);
      ParseNatToString(n);
    }
  }

  /** Under 100 minutes the rendering is five characters, `MM:SS`, and reads back
      as the count it shows. */
  lemma FormatTimeRoundTrip(seconds: nat)
    requires seconds < 6000
    ensures var t := FormatTime(seconds);
      && |t| == 5 && t[2] == ':'
      && AllDigits(t[..2]) && AllDigits(t[3..])
      && ParseNat(t[..2]) * 60 + ParseNat(t[3..]) == seconds
  {
    Pad2RoundTrip(seconds / 60);
    Pad2RoundTrip(seconds % 60);
    var t := FormatTime(seconds);
    assert t[..2] == Pad2(NatToString(seconds / 60));
    assert t[3..] == Pad2(NatToString(seconds % 60));
  }

  lemma FormatTimeExamples()
    ensures FormatTime(300) == "05:00"
    ensures FormatTime(65) == "01:05"
  {
    assert NatToString(5) == "5" && NatToString(0) == "0" && NatToString(1) == "1";
  }
}
