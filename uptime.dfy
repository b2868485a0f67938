/** `format_uptime`: a number of seconds shown as "1d 2h 3m 4s", zero parts left out. */
module Uptime {
  import opened Wrappers
  import opened Text

  datatype Unit = Days | Hours | Minutes | Seconds

  function Letter(u: Unit): char {
    match u
    case Days => 'd'
    case Hours => 'h'
    case Minutes => 'm'
    case Seconds => 's'
  }

  /** Seconds per unit. */
  function Weight(u: Unit): nat {
    match u
    case Days => 86400
    case Hours => 3600
    case Minutes => 60
    case Seconds => 1
  }

  /** Position of a unit in the output, largest first. */
  function Rank(u: Unit): nat {
    match u
    case Days => 0
    case Hours => 1
    case Minutes => 2
    case Seconds => 3
  }

  /** One emitted part, such as `3h`. */
  datatype Part = Part(amount: nat, unit: Unit)

  function Token(p: Part): string {
    DecimalString(p.amount) + [Letter(p.unit)]
  }

  function Tokens(ps: seq<Part>): (ts: seq<string>)
    ensures |ts| == |ps|
    ensures forall k :: 0 <= k < |ps| ==> ts[k] == Token(ps[k])
  {
    if ps == [] then [] else [Token(ps[0])] + Tokens(ps[1..])
  }

  /** Python's `' '.join(parts)`. */
  function Render(ps: seq<Part>): string {
    Join(Tokens(ps), ' ')
  }

  /** The number of seconds the parts add up to. */
  function Total(ps: seq<Part>): nat {
    if ps == [] then 0 else ps[0].amount * Weight(ps[0].unit) + Total(ps[1..])
  }

  /**
   * The shape `format_uptime` promises: units in decreasing size, each at most
   * once, seconds always last, every other part non-zero, and hours, minutes
   * and seconds below 24, 60 and 60.
   */
  ghost predicate Canonical(ps: seq<Part>) {
    && |ps| >= 1
    && ps[|ps| - 1].unit == Seconds
    && (forall i :: 0 <= i < |ps| - 1 ==> Rank(ps[i].unit) < Rank(ps[i + 1].unit))
    && (forall i :: 0 <= i < |ps| - 1 ==> ps[i].amount > 0)
    && (forall i :: 0 <= i < |ps| && ps[i].unit != Days ==> ps[i].amount < Limit(ps[i].unit))
  }

  /** How many of a unit make one of the next larger unit. */
  function Limit(u: Unit): nat
    requires u != Days
  {
    if u == Hours then 24 else 60
  }

  /** The text of one part back to seconds, when it has the shape digits-then-unit. */
  function ParseToken(t: string): Option<nat> {
    if |t| < 2 then None
    else
      var body := t[..|t| - 1];
      var unit := match t[|t| - 1]
        case 'd' => Some(Days)
        case 'h' => Some(Hours)
        case 'm' => Some(Minutes)
        case 's' => Some(Seconds)
        case _ => None;
      if unit.None? || !AllDigits(body) then None
      else Some(DigitsValue(body) * Weight(unit.value))
  }

  function ParseTokens(ts: seq<string>): Option<nat> {
    if ts == [] then Some(0)
    else
      match (ParseToken(ts[0]), ParseTokens(ts[1..]))
      case (Some(a), Some(b)) => Some(a + b)
      case _ => None
  }

  /** Reads an uptime text back to its number of seconds; the inverse of rendering. */
  function ParseUptime(text: string): Option<nat> {
    ParseTokens(Split(text, ' '))
  }

  lemma ParseTokenOf(p: Part)
    ensures ParseToken(Token(p)) == Some(p.amount * Weight(p.unit))
  {
    var t := Token(p);
    assert t[..|t| - 1] == DecimalString(p.amount);
    DecimalRoundTrip(p.amount);
  }

  lemma {:induction false} ParseTokensOf(ps: seq<Part>)
    ensures ParseTokens(Tokens(ps)) == Some(Total(ps))
  {
    if ps != [] {
      ParseTokenOf(ps[0]);
      assert Tokens(ps)[1..] == Tokens(ps[1..]);
      ParseTokensOf(ps[1..]);
    }
  }

  lemma TokenHasNoSpace(p: Part)
    ensures ' ' !in Token(p)
  {
    var t := Token(p);
    var d := DecimalString(p.amount);
    assert forall i :: 0 <= i < |d| ==> t[i] == d[i] && IsDigit(d[i]);
    assert t[|t| - 1] == Letter(p.unit);
  }

  lemma {:induction false} TotalAppend(a: seq<Part>, b: seq<Part>)
    ensures Total(a + b) == Total(a) + Total(b)
  {
    if a != [] {
      assert (a + b)[1..] == a[1..] + b;
      TotalAppend(a[1..], b);
    } else {
      assert a + b == b;
    }
  }

  /** Parsing a rendered list of parts gives back the seconds it stands for. */
  lemma RenderRoundTrip(ps: seq<Part>)
    requires |ps| >= 1
    ensures ParseUptime(Render(ps)) == Some(Total(ps))
  {
    var ts := Tokens(ps);
    forall k | 0 <= k < |ts| ensures ' ' !in ts[k] {
      TokenHasNoSpace(ps[k]);
    }
    SplitJoin(ts, ' ');
    ParseTokensOf(ps);
  }

  /** Python's `format_uptime(seconds)` for a whole, non-negative number of seconds. */
  method FormatUptime(seconds: nat) returns (text: string)
    ensures exists ps :: Canonical(ps) && Total(ps) == seconds && text == Render(ps)
    ensures ParseUptime(text) == Some(seconds)
  {
    var days := seconds / 86400;
    var hours, remainder := (seconds % 86400) / 3600, (seconds % 86400) % 3600;
    var minutes, secs := remainder / 60, remainder % 60;
    var parts: seq<string> := [];
    if days != 0 {
      parts := parts + [Token(Part(days, Days))];
    }
    if hours != 0 {
      parts := parts + [Token(Part(hours, Hours))];
    }
    if minutes != 0 {
      parts := parts + [Token(Part(minutes, Minutes))];
    }
    parts := parts + [Token(Part(secs, Seconds))];
    ghost var ps := FormatParts(days, hours, minutes, secs);
    FormatPartsTokens(days, hours, minutes, secs);
    assert parts == Tokens(ps);
    text := Join(parts, ' ');
    FormatPartsOf(seconds, days, hours, minutes, secs);
    RenderRoundTrip(ps);
    assert Canonical(ps) && Total(ps) == seconds && text == Render(ps);
  }

  /** The parts `format_uptime` emits: days, hours and minutes only when non-zero, then seconds. */
  function FormatParts(days: nat, hours: nat, minutes: nat, secs: nat): seq<Part> {
    (if days != 0 then [Part(days, Days)] else [])
      + (if hours != 0 then [Part(hours, Hours)] else [])
      + (if minutes != 0 then [Part(minutes, Minutes)] else [])
      + [Part(secs, Seconds)]
  }

  lemma FormatPartsTokens(days: nat, hours: nat, minutes: nat, secs: nat)
    ensures Tokens(FormatParts(days, hours, minutes, secs))
      == (if days != 0 then [Token(Part(days, Days))] else [])
       + (if hours != 0 then [Token(Part(hours, Hours))] else [])
       + (if minutes != 0 then [Token(Part(minutes, Minutes))] else [])
       + [Token(Part(secs, Seconds))]
  {
  }

  /** The `timedelta`/`divmod` split of `seconds` gives canonical parts adding up to it. */
  lemma FormatPartsOf(seconds: nat, days: nat, hours: nat, minutes: nat, secs: nat)
    requires days == seconds / 86400
    requires hours == (seconds % 86400) / 3600
    requires minutes == ((seconds % 86400) % 3600) / 60
    requires secs == ((seconds % 86400) % 3600) % 60
    ensures Canonical(FormatParts(days, hours, minutes, secs))
    ensures Total(FormatParts(days, hours, minutes, secs)) == seconds
  {
    SplitSeconds(seconds);
    TotalOfFormat(FormatParts(days, hours, minutes, secs), days, hours, minutes, secs);
  }

  /** Python's `timedelta` and `divmod` split of a number of seconds. */
  lemma SplitSeconds(seconds: nat)
    ensures var daySeconds := seconds % 86400;
      && seconds == (seconds / 86400) * 86400 + (daySeconds / 3600) * 3600
                    + ((daySeconds % 3600) / 60) * 60 + (daySeconds % 3600) % 60
      && daySeconds / 3600 < 24
  {
  }

  /** The parts `FormatUptime` emits add up to its input and are canonical. */
  lemma TotalOfFormat(ps: seq<Part>, days: nat, hours: nat, minutes: nat, secs: nat)
    requires hours < 24 && minutes < 60 && secs < 60
    requires ps == (if days != 0 then [Part(days, Days)] else [])
                 + (if hours != 0 then [Part(hours, Hours)] else [])
                 + (if minutes != 0 then [Part(minutes, Minutes)] else [])
                 + [Part(secs, Seconds)]
    ensures Total(ps) == days * 86400 + hours * 3600 + minutes * 60 + secs
    ensures Canonical(ps)
  {
    var d := if days != 0 then [Part(days, Days)] else [];
    var h := if hours != 0 then [Part(hours, Hours)] else [];
    var m := if minutes != 0 then [Part(minutes, Minutes)] else [];
    var sec := [Part(secs, Seconds)];
    TotalAppend(d, h);
    TotalAppend(d + h, m);
    TotalAppend(d + h + m, sec);
    assert Total(d) == days * 86400 by {
      if days != 0 { assert Total(d) == days * 86400 + Total([]); }
    }
    assert Total(h) == hours * 3600 by {
      if hours != 0 { assert Total(h) == hours * 3600 + Total([]); }
    }
    assert Total(m) == minutes * 60 by {
      if minutes != 0 { assert Total(m) == minutes * 60 + Total([]); }
    }
    assert Total(sec) == secs * 1 + Total([]);
    CanonicalOfFormat(ps, days, hours, minutes, secs);
  }

  lemma CanonicalOfFormat(ps: seq<Part>, days: nat, hours: nat, minutes: nat, secs: nat)
    requires hours < 24 && minutes < 60 && secs < 60
    requires ps == (if days != 0 then [Part(days, Days)] else [])
                 + (if hours != 0 then [Part(hours, Hours)] else [])
                 + (if minutes != 0 then [Part(minutes, Minutes)] else [])
                 + [Part(secs, Seconds)]
    ensures Canonical(ps)
  {
  }
}
