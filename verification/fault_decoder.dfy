/**
 * The fault decoding of `process_error`, as functions: the six-character window built from
 * the two status fields, and the priority choice among the three pair flags. The two
 * copies of the pipeline compute it with different code (see modules LoggingTask and
 * Logging); both are proved to return `Message(Decode(sp1, sp2))`.
 */
module FaultDecoder {
  import opened PyStr
  import opened Binary

  /** The four outcomes of `process_error`. */
  datatype FaultReason = Battery | Temperature | Threshold | Unknown

  /** The text `process_error` returns for each outcome. */
  function Message(r: FaultReason): string
  {
    match r
    case Battery => "Battery device error"
    case Temperature => "Temperature device error"
    case Threshold => "Threshold central error"
    case Unknown => "Unknown device error"
  }

  /** The only texts `process_error` can return. */
  const Messages: set<string> :=
    {"Battery device error", "Temperature device error", "Threshold central error", "Unknown device error"}

  /** Each outcome has its own text, and every text is one of the four fixed messages. */
  lemma MessageFaithful(a: FaultReason, b: FaultReason)
    ensures Message(a) in Messages
    ensures Message(a) == Message(b) ==> a == b
  {
  }

  /** Length of the window the status fields are packed into. */
  const Width: nat := 6

  function Zeros(n: nat): string
  {
    seq(n, _ => '0')
  }

  predicate IsSign(c: char)
  {
    c == '+' || c == '-'
  }

  /** Python's `s.zfill(width)`: zeros inserted on the left, after a leading sign if there is one. */
  function ZFill(s: string, width: nat): (r: string)
    ensures |r| == if |s| >= width then |s| else width
  {
    if |s| >= width then s
    else if s != [] && IsSign(s[0]) then [s[0]] + Zeros(width - |s|) + s[1..]
    else Zeros(width - |s|) + s
  }

  /** `sp1[:-1] + sp2.lstrip("-")`: the checksum character and the minus signs dropped. */
  function Combined(sp1: string, sp2: string): (c: string)
    requires sp1 != []
    ensures |sp1| - 1 <= |c| <= |sp1| - 1 + |sp2|
    ensures c[..|sp1| - 1] == sp1[..|sp1| - 1]
    ensures |c| > |sp1| - 1 ==> c[|sp1| - 1] != '-'
  {
    sp1[..|sp1| - 1] + LStrip(sp2, {'-'})
  }

  /** The first `k` characters of `sp2` are its whole leading run of '-'. */
  predicate MinusRun(sp2: string, k: nat)
  {
    k <= |sp2| && (forall j :: 0 <= j < k ==> sp2[j] == '-') && (k == |sp2| || sp2[k] != '-')
  }

  /** The part appended to `sp1[:-1]` is `sp2` with exactly its leading run of '-' removed. */
  lemma CombinedKeepsRest(sp1: string, sp2: string)
    requires sp1 != []
    ensures exists k: nat :: MinusRun(sp2, k) && Combined(sp1, sp2) == sp1[..|sp1| - 1] + sp2[k..]
  {
    var l := LStrip(sp2, {'-'});
    var k := |sp2| - |l|;
    assert l == sp2[k..];
    assert MinusRun(sp2, k);
  }

  /** `combined.zfill(6)[:6]`: always exactly six characters. */
  function Window(sp1: string, sp2: string): (w: string)
    requires sp1 != []
    ensures |w| == Width
  {
    ZFill(Combined(sp1, sp2), Width)[..Width]
  }

  /**
   * The inputs on which `process_error` does not raise when it calls `int` on the pairs:
   * either field is empty (the early return), or the six-character window is made of digits.
   */
  predicate Decodable(sp1: string, sp2: string)
  {
    sp1 == [] || sp2 == [] || AllDigits(Window(sp1, sp2))
  }

  /** `int(combined[2*i : 2*i+2])`. */
  function PairValue(w: string, i: nat): (n: nat)
    requires |w| == Width && AllDigits(w) && i < 3
    ensures n < 100
  {
    TwoDigits(w[2 * i..2 * i + 2]);
    DigitsValue(w[2 * i..2 * i + 2])
  }

  /** The bit `process_error` tests in each pair: the one of weight 8. */
  predicate Flag(n: nat)
  {
    (n / 8) % 2 == 1
  }

  /** Pair `i` of a numeric window, as the code reads it: index 4 of its `format(n, '08b')` is its flag. */
  lemma PairBit(w: string, i: nat)
    requires |w| == Width && AllDigits(w) && i < 3
    ensures var p := w[2 * i..2 * i + 2];
      && |p| == 2 && AllDigits(p) && DigitsValue(p) == PairValue(w, i)
      && (Format08b(DigitsValue(p))[4] == '1' <==> Flag(PairValue(w, i)))
  {
    var p := w[2 * i..2 * i + 2];
    TwoDigits(p);
    Format08bIndex4(DigitsValue(p));
  }

  /** The first pair whose flag is set names the fault; with none set the fault is unknown. */
  function Reason(w: string): (r: FaultReason)
    requires |w| == Width && AllDigits(w)
    ensures r == Battery <==> Flag(PairValue(w, 0))
    ensures r == Temperature <==> !Flag(PairValue(w, 0)) && Flag(PairValue(w, 1))
    ensures r == Threshold <==> !Flag(PairValue(w, 0)) && !Flag(PairValue(w, 1)) && Flag(PairValue(w, 2))
    ensures r == Unknown <==> !Flag(PairValue(w, 0)) && !Flag(PairValue(w, 1)) && !Flag(PairValue(w, 2))
  {
    if Flag(PairValue(w, 0)) then Battery
    else if Flag(PairValue(w, 1)) then Temperature
    else if Flag(PairValue(w, 2)) then Threshold
    else Unknown
  }

  /** `process_error(sp1, sp2)` as a fault reason. */
  function Decode(sp1: string, sp2: string): (r: FaultReason)
    requires Decodable(sp1, sp2)
    ensures sp1 == [] || sp2 == [] ==> r == Unknown
  {
    if sp1 == [] || sp2 == [] then Unknown else Reason(Window(sp1, sp2))
  }

  /** A set Battery flag hides the other two pairs: they may hold anything. */
  lemma BatteryHidesLaterPairs(w: string, w': string)
    requires |w| == Width && AllDigits(w) && |w'| == Width && AllDigits(w')
    requires w[..2] == w'[..2] && Flag(PairValue(w, 0))
    ensures Reason(w) == Battery && Reason(w') == Battery
  {
    assert w[0..2] == w'[0..2];
  }

  /** With the Battery flag clear, a set Temperature flag hides the third pair. */
  lemma TemperatureHidesThreshold(w: string, w': string)
    requires |w| == Width && AllDigits(w) && |w'| == Width && AllDigits(w')
    requires w[..4] == w'[..4] && !Flag(PairValue(w, 0)) && Flag(PairValue(w, 1))
    ensures Reason(w) == Temperature && Reason(w') == Temperature
  {
    assert w[0..2] == w[..4][0..2] == w'[..4][0..2] == w'[0..2];
    assert w[2..4] == w[..4][2..4] == w'[..4][2..4] == w'[2..4];
  }

  /** The messages of the three pairs, in the order of their priority. */
  const PairMessages: seq<string> := ["Battery device error", "Temperature device error", "Threshold central error"]

  /** When pair `i` is the first with its flag set, the fault is the one pair `i` stands for. */
  lemma FirstFlag(w: string, i: nat)
    requires |w| == Width && AllDigits(w) && i < 3
    requires forall j :: 0 <= j < i ==> !Flag(PairValue(w, j))
    requires Flag(PairValue(w, i))
    ensures Message(Reason(w)) == PairMessages[i] && PairMessages[i] in Messages
  {
    if i == 1 {
      assert !Flag(PairValue(w, 0));
    } else if i == 2 {
      assert !Flag(PairValue(w, 0)) && !Flag(PairValue(w, 1));
    }
  }

  /** The last character of `sp1` is a checksum: it never affects the result. */
  lemma ChecksumIgnored(a: string, c: char, d: char, b: string)
    ensures Decodable(a + [c], b) <==> Decodable(a + [d], b)
    ensures Decodable(a + [c], b) ==> Decode(a + [c], b) == Decode(a + [d], b)
  {
    assert (a + [c])[..|a|] == a == (a + [d])[..|a|];
    assert Combined(a + [c], b) == Combined(a + [d], b);
  }

  /** Leading minus signs of a non-empty `sp2` never affect the result. */
  lemma MinusIgnored(a: string, b: string)
    requires b != []
    ensures Decodable(a, "-" + b) <==> Decodable(a, b)
    ensures Decodable(a, b) ==> Decode(a, "-" + b) == Decode(a, b)
  {
    assert ("-" + b)[1..] == b;
    if a != [] {
      assert Combined(a, "-" + b) == Combined(a, b);
    }
  }

  /** A numeric window keeps the digits of the combined text, right-aligned behind zeros. */
  lemma WindowOfDigits(sp1: string, sp2: string)
    requires sp1 != [] && AllDigits(Combined(sp1, sp2))
    ensures var c := Combined(sp1, sp2);
      Window(sp1, sp2) == if |c| <= Width then Zeros(Width - |c|) + c else c[..Width]
  {
    var c := Combined(sp1, sp2);
    var z := ZFill(c, Width);
    assert Window(sp1, sp2) == z[..Width];
    if |c| >= Width {
      assert z == c;
      if |c| == Width {
        assert Zeros(0) + c == c;
      }
    } else {
      if c != [] {
        assert IsDigit(c[0]) && !IsSign(c[0]);
      }
      assert z == Zeros(Width - |c|) + c;
      assert z[..Width] == z;
    }
  }

  /** Zeros in front of a digit string do not change its value: `zfill` keeps the number. */
  lemma {:induction false} ZerosKeepValue(k: nat, s: string)
    requires AllDigits(s)
    ensures AllDigits(Zeros(k) + s) && DigitsValue(Zeros(k) + s) == DigitsValue(s)
  {
    var z := Zeros(k) + s;
    if s == [] {
      ZerosValue(k);
      assert z == Zeros(k);
    } else {
      ZerosKeepValue(k, s[..|s| - 1]);
      assert z[..|z| - 1] == Zeros(k) + s[..|s| - 1];
    }
  }

  lemma {:induction false} ZerosValue(k: nat)
    ensures AllDigits(Zeros(k)) && DigitsValue(Zeros(k)) == 0
  {
    if k > 0 {
      ZerosValue(k - 1);
      assert Zeros(k)[..k - 1] == Zeros(k - 1);
    }
  }

  /** The window of `process_error("99", "-50")` is "000950". */
  lemma ExampleWindow()
    ensures Window("99", "-50") == "000950"
  {
    ExampleCombined();
    ExamplePadded();
    assert "000950"[..Width] == "000950";
  }

  /** The checksum '9' and the minus sign are dropped: "9" + "50". */
  lemma ExampleCombined()
    ensures Combined("99", "-50") == "950"
  {
    assert LStrip("-50", {'-'}) == "50" by {
      assert "-50"[1..] == "50";
    }
    assert "99"[..1] == "9";
  }

  lemma ExamplePadded()
    ensures ZFill("950", Width) == "000950"
  {
    assert Zeros(3) == "000";
  }

  /** Pairs 0, 9 and 50 of "000950": only the second has its flag set. */
  lemma ExampleReason()
    ensures AllDigits("000950") && Reason("000950") == Temperature
  {
    ExamplePair("000950", 0, "00");
    ExamplePair("000950", 1, "09");
    assert !Flag(0) && Flag(9);
  }

  /** Pair `i` of a concrete window is the number its two digits spell. */
  lemma ExamplePair(w: string, i: nat, p: string)
    requires |w| == Width && AllDigits(w) && i < 3 && w[2 * i..2 * i + 2] == p
    ensures PairValue(w, i) == 10 * (p[0] as int - '0' as int) + (p[1] as int - '0' as int)
  {
    TwoDigits(p);
  }

  /** `process_error("99", "-50")` is a Temperature fault. */
  lemma ExampleTemperature()
    ensures Decodable("99", "-50") && Decode("99", "-50") == Temperature
  {
    ExampleWindow();
    ExampleReason();
  }
}
