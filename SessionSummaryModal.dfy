/**
  The session summary shown after a session finishes: the record of the
  session (its `data` prop) and the three rows the summary displays, with the
  duration written by the modal's own `formatTime` as "<minutes>m <seconds>s".
 */
module SessionSummaryModal {
  import opened JsNumber

  /** One finished session: seconds spent, activity label, number of pauses. */
  datatype SessionData = SessionData(duration: int, category: string, distractions: int)

  /** formatTime's two parts: `Math.floor(seconds / 60)` and `seconds % 60`. */
  function SplitSeconds(seconds: int): (r: (int, int))
    ensures seconds >= 0 ==> r.0 >= 0 && 0 <= r.1 < 60
    ensures seconds >= 0 ==> r.0 * 60 + r.1 == seconds
  {
    (FloorDiv(seconds, 60), Rem(seconds, 60))
  }

  /**
    The modal's formatTime: minutes, "m ", seconds below 60, "s". For a
    non-negative count the seconds are not zero-padded: the character after "m " is '0'
    exactly when the seconds part is 0.
   */
  function FormatTime(seconds: int): (t: string)
    ensures seconds >= 0 ==> t == NatToString(seconds / 60) + ("m " + (NatToString(seconds % 60) + "s"))
    ensures seconds >= 0 ==> |t| > |NatToString(seconds / 60)| + 2 && t[|t| - 1] == 's'
    ensures seconds >= 0 ==> (t[|NatToString(seconds / 60)| + 2] == '0' <==> seconds % 60 == 0)
  {
    var (mins, secs) := SplitSeconds(seconds);
    IntToString(mins) + ("m " + (IntToString(secs) + "s"))
  }

  /** Reads "<digits>m <digits>s" back into a number of seconds. */
  function ParseTime(t: string): Option<nat> {
    var k := LeadingDigits(t);
    if k >= 1 && |t| >= k + 2 && t[k] == 'm' && t[k + 1] == ' '
    then ParseSeconds(DigitsValue(t[..k]), t[k + 2..])
    else None
  }

  /** Reads the "<digits>s" that follows the minutes. */
  function ParseSeconds(mins: nat, rest: string): Option<nat> {
    var j := LeadingDigits(rest);
    if j >= 1 && |rest| == j + 1 && rest[j] == 's'
    then Some(mins * 60 + DigitsValue(rest[..j]))
    else None
  }

  /** The minutes part: digits a, then "m ", hand the rest to ParseSeconds. */
  lemma ParseMinutesOf(a: string, b: string)
    requires |a| >= 1 && AllDigits(a)
    ensures ParseTime(a + ("m " + (b + "s"))) == ParseSeconds(DigitsValue(a), b + "s")
  {
    var rest := "m " + (b + "s");
    LeadingDigitsOfConcat(a, rest);
    assert (a + rest)[|a| + 2..] == rest[2..] == b + "s";
  }

  /** The seconds part: digits b, then "s". */
  lemma ParseSecondsOf(mins: nat, b: string)
    requires |b| >= 1 && AllDigits(b)
    ensures ParseSeconds(mins, b + "s").Some?
    ensures ParseSeconds(mins, b + "s").value == mins * 60 + DigitsValue(b)
  {
    LeadingDigitsOfConcat(b, "s");
  }


  /** "<m>m <s>s" reads back to m * 60 + s. */
  lemma ParseMinutesSeconds(m: nat, sec: nat)
    ensures ParseTime(NatToString(m) + ("m " + (NatToString(sec) + "s"))).Some?
    ensures ParseTime(NatToString(m) + ("m " + (NatToString(sec) + "s"))).value == m * 60 + sec
  {
    var a, b := NatToString(m), NatToString(sec);
    var read := ParseTime(a + ("m " + (b + "s")));
    assert read == ParseSeconds(m, b + "s") by {
      NatToStringRoundTrip(m);
      ParseMinutesOf(a, b);
    }
    assert read.Some? && read.value == m * 60 + sec by {
      NatToStringRoundTrip(sec);
      ParseSecondsOf(m, b);
    }
  }

  /** The duration text loses nothing: it reads back to the number of seconds shown. */
  lemma FormatTimeRoundTrip(seconds: nat)
    ensures ParseTime(FormatTime(seconds)) == Some(seconds)
  {
    ParseMinutesSeconds(seconds / 60, seconds % 60);
    var read := ParseTime(FormatTime(seconds));
    assert read.Some? && read.value == seconds;
  }

  /** The three label/value rows of the summary for one session. */
  function SummaryRows(data: SessionData): (rows: seq<(string, string)>)
    ensures |rows| == 3
    ensures rows[0].0 == "Duration:" && rows[1].0 == "Category:" && rows[2].0 == "Distractions:"
  {
    [("Duration:", FormatTime(data.duration)),
     ("Category:", data.category),
     ("Distractions:", IntToString(data.distractions))]
  }

  /** Each row shows its field of the session unchanged: every field reads back. */
  lemma SummaryShowsSession(data: SessionData)
    requires data.duration >= 0 && data.distractions >= 0
    ensures ParseTime(SummaryRows(data)[0].1) == Some(data.duration)
    ensures SummaryRows(data)[1].1 == data.category
    ensures ParseNat(SummaryRows(data)[2].1) == Some(data.distractions)
  {
    FormatTimeRoundTrip(data.duration);
    NatToStringRoundTrip(data.distractions);
  }
}
