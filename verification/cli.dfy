/**
 The pure helpers of the `irelay` command line: the port-pair argument parser, the
 classification of listener and relay errors, and the verbosity-gated debug output.
 `panic`, which prints a message and exits the process, is modelled as an error result.
 */
module Cli {
  import opened Results

  /** The number of occurrences of `c` in `s`. */
  function Count(c: char, s: string): (n: nat)
  {
    if |s| == 0 then 0 else (if s[0] == c then 1 else 0) + Count(c, s[1..])
  }

  /** The parts joined back together with `sep` between consecutive parts. */
  function Join(parts: seq<string>, sep: char): (s: string)
    requires |parts| > 0
  {
    if |parts| == 1 then parts[0] else parts[0] + [sep] + Join(parts[1..], sep)
  }

  /** JavaScript's `String.prototype.split` with a one-character separator. */
  function SplitOn(s: string, sep: char): (parts: seq<string>)
    ensures |parts| == Count(sep, s) + 1
    ensures forall i :: 0 <= i < |parts| ==> sep !in parts[i]
    ensures Join(parts, sep) == s
    decreases |s|
  {
    if |s| == 0 then [""]
    else
      var rest := SplitOn(s[1..], sep);
      if s[0] == sep then
        assert [""] + rest == [[]] + rest;
        assert Join([""] + rest, sep) == [] + [sep] + Join(rest, sep);
        [""] + rest
      else
        var parts := [[s[0]] + rest[0]] + rest[1..];
        assert parts[1..] == rest[1..];
        assert forall i :: 1 <= i < |parts| ==> parts[i] == rest[i];
        parts
  }

  /** Splitting a part free of the separator followed by the separator peels that part off. */
  lemma {:induction false} SplitOnPeel(a: string, sep: char, rest: string)
    requires sep !in a
    ensures SplitOn(a + [sep] + rest, sep) == [a] + SplitOn(rest, sep)
    decreases |a|
  {
    if |a| == 0 {
      assert a + [sep] + rest == [sep] + rest;
      assert ([sep] + rest)[1..] == rest;
    } else {
      assert (a + [sep] + rest)[1..] == a[1..] + [sep] + rest;
      assert sep !in a[1..] by { assert forall i :: 0 <= i < |a[1..]| ==> a[1..][i] == a[i + 1]; }
      SplitOnPeel(a[1..], sep, rest);
      assert [a[0]] + a[1..] == a;
    }
  }

  /** Splitting undoes joining, for parts free of the separator. */
  lemma {:induction false} SplitJoin(parts: seq<string>, sep: char)
    requires |parts| > 0
    requires forall i :: 0 <= i < |parts| ==> sep !in parts[i]
    ensures SplitOn(Join(parts, sep), sep) == parts
    decreases |parts|
  {
    if |parts| == 1 {
      SplitOnNoSeparator(parts[0], sep);
    } else {
      SplitJoin(parts[1..], sep);
      SplitOnPeel(parts[0], sep, Join(parts[1..], sep));
      assert [parts[0]] + parts[1..] == parts;
    }
  }

  /** A string free of the separator splits into itself alone. */
  lemma {:induction false} SplitOnNoSeparator(s: string, sep: char)
    requires sep !in s
    ensures SplitOn(s, sep) == [s]
    decreases |s|
  {
    if |s| > 0 {
      assert sep !in s[1..] by { assert forall i :: 0 <= i < |s[1..]| ==> s[1..][i] == s[i + 1]; }
      SplitOnNoSeparator(s[1..], sep);
      assert [s[0]] + s[1..] == s;
    }
  }

  // ---------------------------------------------------------------------------
  // parsePorts

  /** What `panic` prints before the process exits. */
  datatype Panic = Panic(message: string)

  const PortsPanic: Panic := Panic("Error parsing ports.")

  /** The device port (on the phone) and the relay port (on this host), in that order. */
  datatype PortPair = PortPair(devicePort: real, relayPort: real)

  /**
   The number one side of the pair denotes, `None` standing for NaN. An empty side is
   NaN even where the string-to-number conversion would read it as 0.
   */
  function Side(toNumber: string -> Option<real>, s: string): (n: Option<real>)
  {
    if s == "" then None else toNumber(s)
  }

  /**
   Parses `device:relay`. `toNumber` is JavaScript's `Number` applied to a string, with
   `None` for NaN; no range or integer check follows it.
   */
  function ParsePorts(toNumber: string -> Option<real>, arg: string): (r: Result<PortPair, Panic>)
    ensures r.Err? ==> r.error == PortsPanic
    ensures Count(':', arg) != 1 ==> r.Err?
    ensures r.Ok? ==>
      var ports := SplitOn(arg, ':');
      && arg == ports[0] + ":" + ports[1]
      && ports[0] != "" && ports[1] != ""
      && toNumber(ports[0]) == Some(r.value.devicePort)
      && toNumber(ports[1]) == Some(r.value.relayPort)
  {
    var ports := SplitOn(arg, ':');
    if |ports| != 2 then Err(PortsPanic)
    else
      var devicePort := Side(toNumber, ports[0]);
      var relayPort := Side(toNumber, ports[1]);
      if devicePort.None? || relayPort.None? then Err(PortsPanic)
      else
        assert ports[1..] == [ports[1]];
        assert Join(ports, ':') == ports[0] + [':'] + Join(ports[1..], ':');
        Ok(PortPair(devicePort.value, relayPort.value))
  }

  /**
   The whole behaviour of ParsePorts on an argument with exactly one colon: it succeeds
   exactly when both sides are non-empty numbers, and then answers them device first.
   */
  lemma ParsePortsSides(toNumber: string -> Option<real>, a: string, b: string)
    requires ':' !in a && ':' !in b
    ensures ParsePorts(toNumber, a + ":" + b)
         == if a != "" && b != "" && toNumber(a).Some? && toNumber(b).Some?
            then Ok(PortPair(toNumber(a).value, toNumber(b).value))
            else Err(PortsPanic)
  {
    SplitJoin([a, b], ':');
    assert Join([a, b], ':') == a + ":" + b by {
      assert [a, b][1..] == [b];
    }
  }

  /** Every argument with exactly one colon is some `a:b` with colon-free sides. */
  lemma OneColonIsPair(arg: string)
    requires Count(':', arg) == 1
    ensures
      var ports := SplitOn(arg, ':');
      && |ports| == 2 && arg == ports[0] + ":" + ports[1]
      && ':' !in ports[0] && ':' !in ports[1]
  {
    var ports := SplitOn(arg, ':');
    assert ports[1..] == [ports[1]];
    assert Join(ports, ':') == ports[0] + [':'] + Join([ports[1]], ':');
  }

  /** The digits-only reading of a port: non-empty, and every character a decimal digit. */
  predicate IsDigits(s: string)
  {
    |s| > 0 && forall i :: 0 <= i < |s| ==> '0' <= s[i] <= '9'
  }

  /** The number a string of decimal digits spells, most significant digit first. */
  function DigitsValue(s: string): (n: nat)
    requires forall i :: 0 <= i < |s| ==> '0' <= s[i] <= '9'
    decreases |s|
  {
    if |s| == 0 then 0
    else 10 * DigitsValue(s[..|s| - 1]) + (s[|s| - 1] as int - '0' as int)
  }

  /**
   A stand-in for `Number` on port strings: digit runs read as exact naturals, and every
   other string reads as NaN.
   */
  function DecimalNumber(s: string): (r: Option<real>)
    ensures r.Some? <==> IsDigits(s)
    ensures r.Some? ==> 0.0 <= r.value && r.value.Floor as real == r.value
  {
    if IsDigits(s) then Some(DigitsValue(s) as real) else None
  }

  /** The decimal numeral of `n`, most significant digit first, without leading zeros. */
  function Numeral(n: nat): (s: string)
    ensures IsDigits(s)
    ensures ':' !in s
    decreases n
  {
    var last := [('0' as int + n % 10) as char];
    if n < 10 then last else Numeral(n / 10) + last
  }

  /** Reading the numeral of `n` gives back `n`. */
  lemma {:induction false} NumeralValue(n: nat)
    ensures DigitsValue(Numeral(n)) == n
    decreases n
  {
    var s := Numeral(n);
    if n < 10 {
      assert s[..0] == "";
    } else {
      NumeralValue(n / 10);
      assert s[..|s| - 1] == Numeral(n / 10);
    }
  }

  /** The digits-only reading of `Number` reads every numeral as the number it spells. */
  lemma DecimalNumeral(n: nat)
    ensures DecimalNumber(Numeral(n)) == Some(n as real)
  {
    NumeralValue(n);
  }

  /** A pair of numerals parses to those two numbers, device port first. */
  lemma ParsePortsNumerals(device: nat, relay: nat)
    ensures ParsePorts(DecimalNumber, Numeral(device) + ":" + Numeral(relay))
         == Ok(PortPair(device as real, relay as real))
  {
    DecimalNumeral(device);
    DecimalNumeral(relay);
    ParsePortsSides(DecimalNumber, Numeral(device), Numeral(relay));
  }

  /** The numerals of the usage example read as the numbers they spell. */
  lemma DecimalExamples()
    ensures DecimalNumber("22") == Some(22.0)
    ensures DecimalNumber("2222") == Some(2222.0)
  {
    assert DigitsValue("2") == 2 by { assert "2"[..0] == ""; }
    assert DigitsValue("22") == 22 by { assert "22"[..1] == "2"; }
    assert DigitsValue("222") == 222 by { assert "222"[..2] == "22"; }
    assert DigitsValue("2222") == 2222 by { assert "2222"[..3] == "222"; }
  }

  /** The example of the usage text: `22:2222` relays local port 2222 to device port 22. */
  lemma ParsePortsExample()
    ensures ParsePorts(DecimalNumber, "22:2222") == Ok(PortPair(22.0, 2222.0))
  {
    DecimalExamples();
    ParsePortsSides(DecimalNumber, "22", "2222");
    assert "22" + ":" + "2222" == "22:2222";
  }

  /** The numeral of the second usage example reads as the number it spells. */
  lemma SecondExampleNumeral()
    ensures DecimalNumber("1234") == Some(1234.0)
  {
    assert DigitsValue("1") == 1 by { assert "1"[..0] == ""; }
    assert DigitsValue("12") == 12 by { assert "12"[..1] == "1"; }
    assert DigitsValue("123") == 123 by { assert "123"[..2] == "12"; }
    assert DigitsValue("1234") == 1234 by { assert "1234"[..3] == "123"; }
  }

  /** The second usage example: `1234:1234` relays local port 1234 to device port 1234. */
  lemma ParsePortsSecondExample()
    ensures ParsePorts(DecimalNumber, "1234:1234") == Ok(PortPair(1234.0, 1234.0))
  {
    SecondExampleNumeral();
    ParsePortsSides(DecimalNumber, "1234", "1234");
    assert "1234" + ":" + "1234" == "1234:1234";
  }

  /** An empty side is refused even when the conversion reads the empty string as 0. */
  lemma EmptySideRefused(toNumber: string -> Option<real>, side: string)
    requires toNumber("") == Some(0.0)
    requires ':' !in side
    ensures ParsePorts(toNumber, ":" + side) == Err(PortsPanic)
    ensures ParsePorts(toNumber, side + ":") == Err(PortsPanic)
  {
    ParsePortsSides(toNumber, "", side);
    ParsePortsSides(toNumber, side, "");
    assert "" + ":" + side == ":" + side;
    assert side + ":" + "" == side + ":";
  }

  // ---------------------------------------------------------------------------
  // onErr

  /** The three outcomes of the error handler, each ending the process with its message. */
  datatype Failure =
    | PortInUse        // "Local port is in use"
    | DaemonNotFound   // "Usbmuxd not found at <address>"
    | Unexpected       // the error itself

  /** Classifies an error by its `code`, which may be absent. */
  function OnErr(code: Option<string>): (f: Failure)
    ensures f == PortInUse <==> code == Some("EADDRINUSE")
    ensures f == DaemonNotFound <==> code == Some("ECONNREFUSED") || code == Some("EADDRNOTAVAIL")
    ensures f == Unexpected <==>
      code !in {Some("EADDRINUSE"), Some("ECONNREFUSED"), Some("EADDRNOTAVAIL")}
  {
    if code == Some("EADDRINUSE") then PortInUse
    else if code == Some("ECONNREFUSED") || code == Some("EADDRNOTAVAIL") then DaemonNotFound
    else Unexpected
  }

  // ---------------------------------------------------------------------------
  // info

  /** The JavaScript values handed to `info`, enough to tell which are falsy. */
  datatype JsValue =
    | Undefined
    | Null
    | Bool(b: bool)
    | Number(n: real)
    | NaN
    | Str(s: string)
    | Object

  /** JavaScript falsiness. */
  predicate Falsy(v: JsValue)
  {
    v in {Undefined, Null, Bool(false), Number(0.0), NaN, Str("")}
  }

  /**
   The arguments `info` prints, or `None` when it prints nothing: it prints only at
   verbosity exactly 1, and then drops the last argument when that one is falsy.
   */
  function Info(verbose: nat, args: seq<JsValue>): (out: Option<seq<JsValue>>)
    ensures out.Some? <==> verbose == 1
    ensures out.Some? ==> out.value <= args && |args| - |out.value| <= 1
    ensures out.Some? ==> (|out.value| < |args| <==> |args| > 0 && Falsy(args[|args| - 1]))
  {
    if verbose != 1 then None
    else if |args| > 0 && Falsy(args[|args| - 1]) then Some(args[..|args| - 1])
    else Some(args)
  }

  /**
   A handler bound to a caption, as the relay's event handlers are, always prints its caption
   first, whatever the event passes after it.
   */
  lemma InfoKeepsLabel(caption: string, event: seq<JsValue>)
    requires caption != ""
    ensures
      var out := Info(1, [Str(caption)] + event);
      out.Some? && |out.value| >= 1 && out.value[0] == Str(caption)
  {
  }
}
