/** Text and number helpers shared by the bot's extensions: human-readable durations,
    list chunking, markdown escaping and the digit <-> keycap-emoji mapping. */
module Helper {
  import opened Common

  // ---------------------------------------------------------------------------
  // Durations
  // ---------------------------------------------------------------------------

  /** The unit table, largest unit first. */
  const UnitNames: seq<string> := ["weeks", "days", "hours", "minutes", "seconds"]
  const UnitSizes: seq<int> := [604800, 86400, 3600, 60, 1]
  const UnitCount: nat := 5

  type UnitIndex = k: nat | k < 5

  /** One emitted piece of a duration: `value` of the unit at index `unit`. */
  datatype Part = Part(value: int, unit: UnitIndex)

  /** The seconds left when the unit loop reaches unit `k`: each step subtracts
      `value * count` with `value = seconds // count`. */
  function RemAt(seconds: int, k: nat): int
    requires k <= UnitCount
  {
    if k == 0 then seconds
    else
      var r := RemAt(seconds, k - 1);
      r - (r / UnitSizes[k - 1]) * UnitSizes[k - 1]
  }

  /** The parts the unit loop has emitted after the first `k` units: the quotient by
      each unit size, skipping zero quotients. */
  function EmittedUpTo(seconds: int, k: nat): seq<Part>
    requires k <= UnitCount
  {
    if k == 0 then []
    else
      var r := RemAt(seconds, k - 1);
      var v := r / UnitSizes[k - 1];
      EmittedUpTo(seconds, k - 1) + (if v != 0 then [Part(v, k - 1)] else [])
  }

  function Emitted(seconds: int): seq<Part> { EmittedUpTo(seconds, UnitCount) }

  /** Sum of value * unit size over the parts. */
  function Weight(ps: seq<Part>): int
  {
    if ps == [] then 0 else Weight(ps[..|ps| - 1]) + ps[|ps| - 1].value * UnitSizes[ps[|ps| - 1].unit]
  }

  lemma DivFacts(rem: int, d: int)
    requires d > 0
    ensures 0 <= rem - (rem / d) * d < d
    ensures rem >= 0 ==> rem / d >= 0
  {
  }

  /** After the first unit, the remainder is below the size of the unit just used. */
  lemma RemAtBound(seconds: int, k: nat)
    requires 1 <= k <= UnitCount
    ensures 0 <= RemAt(seconds, k) < UnitSizes[k - 1]
  {
    DivFacts(RemAt(seconds, k - 1), UnitSizes[k - 1]);
  }

  lemma {:induction false} EmittedUpToExact(seconds: int, k: nat)
    requires k <= UnitCount
    ensures Weight(EmittedUpTo(seconds, k)) + RemAt(seconds, k) == seconds
  {
    if k > 0 {
      EmittedUpToExact(seconds, k - 1);
      var r := RemAt(seconds, k - 1);
      var v := r / UnitSizes[k - 1];
      var prefix := EmittedUpTo(seconds, k - 1);
      if v != 0 {
        assert (prefix + [Part(v, k - 1)])[..|prefix|] == prefix;
      } else {
        assert prefix + [] == prefix;
      }
    }
  }

  /** The duration is decomposed exactly: the emitted values times their unit
      sizes add up to the input, for every integer input (negative ones included,
      since Python's `//` floors). */
  lemma DisplayTimeExact(seconds: int)
    ensures Weight(Emitted(seconds)) == seconds
  {
    EmittedUpToExact(seconds, UnitCount);
    RemAtBound(seconds, UnitCount);
  }

  /** A part after the first unit is positive and worth less than one of the next larger unit. */
  ghost predicate BelowLargerUnit(p: Part)
  {
    p.unit > 0 ==> 0 < p.value && p.value * UnitSizes[p.unit] < UnitSizes[p.unit - 1]
  }

  /** Every part is non-zero and below the next larger unit; units strictly descend in size. */
  ghost predicate WellFormedParts(ps: seq<Part>)
  {
    && (forall i :: 0 <= i < |ps| ==> ps[i].value != 0 && BelowLargerUnit(ps[i]))
    && (forall i, j :: 0 <= i < j < |ps| ==> ps[i].unit < ps[j].unit)
  }

  lemma WellFormedSnoc(ps: seq<Part>, p: Part)
    requires WellFormedParts(ps) && forall i :: 0 <= i < |ps| ==> ps[i].unit < p.unit
    requires p.value != 0 && BelowLargerUnit(p)
    ensures WellFormedParts(ps + [p])
  {
  }

  /** The quotient taken at unit `k - 1`, when non-zero, is below the next larger unit. */
  lemma QuotientBelowLargerUnit(seconds: int, k: nat)
    requires 1 <= k <= UnitCount
    ensures var v := RemAt(seconds, k - 1) / UnitSizes[k - 1];
      v != 0 ==> BelowLargerUnit(Part(v, k - 1))
  {
    if k > 1 {
      var r := RemAt(seconds, k - 1);
      var d := UnitSizes[k - 1];
      RemAtBound(seconds, k - 1);
      DivFacts(r, d);
      assert (r / d) * d <= r;
    }
  }

  lemma {:induction false} EmittedUpToWellFormed(seconds: int, k: nat)
    requires k <= UnitCount
    ensures WellFormedParts(EmittedUpTo(seconds, k))
    ensures forall i :: 0 <= i < |EmittedUpTo(seconds, k)| ==> EmittedUpTo(seconds, k)[i].unit < k
  {
    if k > 0 {
      EmittedUpToWellFormed(seconds, k - 1);
      var v := RemAt(seconds, k - 1) / UnitSizes[k - 1];
      var prefix := EmittedUpTo(seconds, k - 1);
      if v != 0 {
        QuotientBelowLargerUnit(seconds, k);
        WellFormedSnoc(prefix, Part(v, k - 1));
      } else {
        assert prefix + [] == prefix;
      }
    }
  }

  /** Units come out largest first, each at most once, only with non-zero values,
      and every unit after the first is below the next larger unit: days < 7,
      hours < 24, minutes < 60, seconds < 60. */
  lemma DisplayTimeOrdered(seconds: int)
    ensures WellFormedParts(Emitted(seconds))
  {
    EmittedUpToWellFormed(seconds, UnitCount);
  }

  /** Python's `s.rstrip(c)`: drop every trailing `c`. */
  function RStrip(s: string, c: char): (r: string)
    ensures r <= s
    ensures r == [] || r[|r| - 1] != c
  {
    if s != [] && s[|s| - 1] == c then RStrip(s[..|s| - 1], c) else s
  }

  function DigitChar(d: int): char
    requires 0 <= d < 10
  {
    ['0', '1', '2', '3', '4', '5', '6', '7', '8', '9'][d]
  }

  function NatDecimal(n: nat): string
  {
    if n < 10 then [DigitChar(n)] else NatDecimal(n / 10) + [DigitChar(n % 10)]
  }

  /** Python's `str(n)` for an integer. */
  function Decimal(n: int): string
  {
    if n < 0 then "-" + NatDecimal(-n) else NatDecimal(n)
  }

  /** `f"{value} {name}"`, with the unit name made singular when the value is 1. */
  function PartText(p: Part): string
  {
    var name := UnitNames[p.unit];
    Decimal(p.value) + " " + (if p.value == 1 then RStrip(name, 's') else name)
  }

  function PartTexts(ps: seq<Part>): (ts: seq<string>)
    ensures |ts| == |ps|
  {
    if ps == [] then [] else [PartText(ps[0])] + PartTexts(ps[1..])
  }

  lemma {:induction false} PartTextsAppend(a: seq<Part>, b: seq<Part>)
    ensures PartTexts(a + b) == PartTexts(a) + PartTexts(b)
  {
    if a == [] {
      assert a + b == b;
    } else {
      assert (a + b)[1..] == a[1..] + b;
      PartTextsAppend(a[1..], b);
    }
  }

  /** Python's `xs[:n]` for any integer `n` (a negative `n` counts from the end). */
  function PyPrefix<T>(xs: seq<T>, n: int): (r: seq<T>)
    ensures r <= xs
    ensures n >= 0 ==> |r| == Min(n, |xs|)
  {
    if n >= 0 then xs[..Min(n, |xs|)] else xs[..Max(|xs| + n, 0)]
  }

  /** Python's `sep.join(xs)`. */
  function Join(xs: seq<string>, sep: string): string
  {
    if xs == [] then "" else if |xs| == 1 then xs[0] else xs[0] + sep + Join(xs[1..], sep)
  }

  /** The string `display_time` returns: at most `granularity` emitted parts, joined by ", ". */
  function DisplayTimeSpec(seconds: int, granularity: int): string
  {
    Join(PyPrefix(PartTexts(Emitted(seconds)), granularity), ", ")
  }

  /** Stripping trailing 's' from a name that ends in exactly one 's' drops that letter. */
  lemma RStripOnce(name: string)
    requires |name| >= 2 && name[|name| - 1] == 's' && name[|name| - 2] != 's'
    ensures RStrip(name, 's') == name[..|name| - 1]
  {
    var stem := name[..|name| - 1];
    assert stem[|stem| - 1] == name[|name| - 2];
  }

  /** A value of exactly one names its unit in the singular: "1 week", "1 day", "1 hour",
      "1 minute", "1 second". */
  lemma SingularUnitName(u: UnitIndex)
    ensures PartText(Part(1, u)) == "1 " + UnitNames[u][..|UnitNames[u]| - 1]
  {
    var name := UnitNames[u];
    assert Decimal(1) == "1";
    RStripOnce(name);
  }

  /** Zero seconds emits no unit at all, so the result is the empty string. */
  lemma DisplayTimeZero(granularity: int)
    ensures DisplayTimeSpec(0, granularity) == ""
  {
    assert RemAt(0, 4) == 0;
    assert EmittedUpTo(0, 4) == [];
  }

  /** `display_time(seconds, granularity)`: divide by each unit in turn, subtract,
      and collect the non-zero parts. */
  method DisplayTime(seconds: int, granularity: int := 2) returns (s: string)
    ensures s == DisplayTimeSpec(seconds, granularity)
  {
    var rem := seconds;
    var result: seq<string> := [];
    ghost var parts: seq<Part> := [];
    var k := 0;
    while k < UnitCount
      invariant 0 <= k <= UnitCount
      invariant rem == RemAt(seconds, k)
      invariant parts == EmittedUpTo(seconds, k)
      invariant result == PartTexts(parts)
    {
      var value := rem / UnitSizes[k];
      if value != 0 {
        rem := rem - value * UnitSizes[k];
        var name := UnitNames[k];
        if value == 1 {
          name := RStrip(name, 's');
        }
        PartTextsAppend(parts, [Part(value, k)]);
        parts := parts + [Part(value, k)];
        result := result + [Decimal(value) + " " + name];
      }
      k := k + 1;
    }
    s := Join(PyPrefix(result, granularity), ", ");
  }

  // ---------------------------------------------------------------------------
  // Chunking
  // ---------------------------------------------------------------------------

  /** `chunks(list_in, n)`: the slices `list_in[i:i + n]` for `i` in `range(0, len(list_in), n)`.
      A step of zero makes `range` raise ValueError; a negative step yields nothing. */
  method Chunks<T>(l: seq<T>, n: int) returns (r: Result<seq<seq<T>>>)
    ensures n == 0 <==> r == Err(ValueError)
    ensures n < 0 ==> r == Ok([])
    ensures n > 0 ==> r.Ok? && Flatten(r.value) == l
    ensures n > 0 ==> r.Ok? && forall i :: 0 <= i < |r.value| ==> 0 < |r.value[i]| <= n
    ensures n > 0 ==> r.Ok? && forall i :: 0 <= i < |r.value| - 1 ==> |r.value[i]| == n
  {
    if n == 0 {
      return Err(ValueError);
    }
    if n < 0 {
      return Ok([]);
    }
    var acc: seq<seq<T>> := [];
    var i := 0;
    while i < |l|
      invariant 0 <= i
      invariant Flatten(acc) == l[..Min(i, |l|)]
      invariant forall j :: 0 <= j < |acc| ==> 0 < |acc[j]| <= n
      invariant forall j :: 0 <= j < |acc| - 1 ==> |acc[j]| == n
      invariant i <= |l| ==> forall j :: 0 <= j < |acc| ==> |acc[j]| == n
      decreases |l| - i
    {
      var chunk := l[i..Min(i + n, |l|)];
      FlattenSnoc(acc, chunk);
      assert l[..i] + chunk == l[..Min(i + n, |l|)];
      acc := acc + [chunk];
      i := i + n;
    }
    assert l[..Min(i, |l|)] == l;
    r := Ok(acc);
  }

  // ---------------------------------------------------------------------------
  // Markdown escaping
  // ---------------------------------------------------------------------------

  const Backtick: char := '`'
  const ModifierGrave: char := '\U{02CB}'
  const Asterisk: char := '*'
  const AsteriskOperator: char := '\U{2217}'
  const ZeroWidthSpace: char := '\U{200B}'

  /** Python's `s.replace(c, r)` for a one-character pattern `c`. */
  function ReplaceChar(s: string, c: char, r: string): string
  {
    if s == [] then [] else (if s[0] == c then r else [s[0]]) + ReplaceChar(s[1..], c, r)
  }

  lemma {:induction false} ReplaceCharByChar(s: string, c: char, d: char)
    ensures |ReplaceChar(s, c, [d])| == |s|
    ensures forall i :: 0 <= i < |s| ==> ReplaceChar(s, c, [d])[i] == (if s[i] == c then d else s[i])
  {
    if s != [] {
      ReplaceCharByChar(s[1..], c, d);
    }
  }

  lemma {:induction false} ReplaceCharRemoves(s: string, c: char, r: string, x: char)
    requires x !in r
    requires x == c || x !in s
    ensures x !in ReplaceChar(s, c, r)
  {
    if s != [] {
      ReplaceCharRemoves(s[1..], c, r, x);
    }
  }

  /** Every `c` in `s` is immediately followed by `z`. */
  ghost predicate FollowedBy(s: string, c: char, z: char)
  {
    forall i :: 0 <= i < |s| && s[i] == c ==> i + 1 < |s| && s[i + 1] == z
  }

  lemma {:induction false} ReplaceCharSuffixes(s: string, c: char, z: char)
    requires c != z
    ensures FollowedBy(ReplaceChar(s, c, [c, z]), c, z)
  {
    if s != [] {
      ReplaceCharSuffixes(s[1..], c, z);
      var head: string := if s[0] == c then [c, z] else [s[0]];
      var rest := ReplaceChar(s[1..], c, [c, z]);
      var res := head + rest;
      assert ReplaceChar(s, c, [c, z]) == res;
      forall i | 0 <= i < |res| && res[i] == c
        ensures i + 1 < |res| && res[i + 1] == z
      {
        if i >= |head| {
          assert res[i] == rest[i - |head|];
          assert res[i + 1] == rest[i + 1 - |head|];
        }
      }
    }
  }

  lemma {:induction false} ReplaceCharKeepsFollowedBy(s: string, d: char, r: string, c: char, z: char)
    requires FollowedBy(s, c, z)
    requires d != c && d != z
    requires |r| > 0 && r[0] == d && c !in r[1..]
    ensures FollowedBy(ReplaceChar(s, d, r), c, z)
  {
    if s != [] {
      ReplaceCharKeepsFollowedBy(s[1..], d, r, c, z);
      var head: string := if s[0] == d then r else [s[0]];
      var rest := ReplaceChar(s[1..], d, r);
      assert ReplaceChar(s, d, r) == head + rest;
      if s[0] == c {
        assert |s| > 1 && s[1] == z;
        assert rest[0] == z;
      }
    }
  }

  /** `safety_escape_in_monospace`: backticks become U+02CB and the text is wrapped in
      backticks, so the inline code span cannot be closed early. */
  function SafetyEscapeInMonospace(s: string): (r: string)
    ensures |r| == |s| + 2 && r[0] == Backtick && r[|r| - 1] == Backtick
    ensures forall i :: 0 < i < |r| - 1 ==> r[i] != Backtick
    ensures forall i :: 0 <= i < |s| ==> r[i + 1] == (if s[i] == Backtick then ModifierGrave else s[i])
  {
    var safe := ReplaceChar(s, Backtick, [ModifierGrave]);
    ReplaceCharByChar(s, Backtick, ModifierGrave);
    [Backtick] + safe + [Backtick]
  }

  /** `safety_escape_regular`: four successive replacements. */
  function SafetyEscapeRegular(s: string): (r: string)
    ensures Backtick !in r && Asterisk !in r
  {
    var a := ReplaceChar(s, Backtick, [ModifierGrave]);
    var b := ReplaceChar(a, Asterisk, [AsteriskOperator]);
    var c := ReplaceChar(b, '@', ['@', ZeroWidthSpace]);
    ReplaceCharRemoves(s, Backtick, [ModifierGrave], Backtick);
    ReplaceCharRemoves(a, Asterisk, [AsteriskOperator], Backtick);
    ReplaceCharRemoves(b, '@', ['@', ZeroWidthSpace], Backtick);
    ReplaceCharRemoves(c, '#', ['#', ZeroWidthSpace], Backtick);
    ReplaceCharRemoves(a, Asterisk, [AsteriskOperator], Asterisk);
    ReplaceCharRemoves(b, '@', ['@', ZeroWidthSpace], Asterisk);
    ReplaceCharRemoves(c, '#', ['#', ZeroWidthSpace], Asterisk);
    ReplaceChar(c, '#', ['#', ZeroWidthSpace])
  }

  /** The escaped text has no backtick and no asterisk, and every '@' and every '#'
      in it is followed by a zero-width space (so no mention or channel link forms). */
  lemma SafetyEscapeRegularSafe(s: string)
    ensures Backtick !in SafetyEscapeRegular(s)
    ensures Asterisk !in SafetyEscapeRegular(s)
    ensures FollowedBy(SafetyEscapeRegular(s), '@', ZeroWidthSpace)
    ensures FollowedBy(SafetyEscapeRegular(s), '#', ZeroWidthSpace)
  {
    var a := ReplaceChar(s, Backtick, [ModifierGrave]);
    var b := ReplaceChar(a, Asterisk, [AsteriskOperator]);
    var c := ReplaceChar(b, '@', ['@', ZeroWidthSpace]);
    var d := ReplaceChar(c, '#', ['#', ZeroWidthSpace]);
    ReplaceCharRemoves(s, Backtick, [ModifierGrave], Backtick);
    ReplaceCharRemoves(a, Asterisk, [AsteriskOperator], Backtick);
    ReplaceCharRemoves(b, '@', ['@', ZeroWidthSpace], Backtick);
    ReplaceCharRemoves(c, '#', ['#', ZeroWidthSpace], Backtick);
    ReplaceCharRemoves(a, Asterisk, [AsteriskOperator], Asterisk);
    ReplaceCharRemoves(b, '@', ['@', ZeroWidthSpace], Asterisk);
    ReplaceCharRemoves(c, '#', ['#', ZeroWidthSpace], Asterisk);
    ReplaceCharSuffixes(b, '@', ZeroWidthSpace);
    assert ['#', ZeroWidthSpace][1..] == [ZeroWidthSpace];
    ReplaceCharKeepsFollowedBy(c, '#', ['#', ZeroWidthSpace], '@', ZeroWidthSpace);
    ReplaceCharSuffixes(c, '#', ZeroWidthSpace);
  }

  // ---------------------------------------------------------------------------
  // Keycap reactions
  // ---------------------------------------------------------------------------

  const KeycapMark: char := '\U{20E3}'
  const KeycapTen: char := '\U{1F51F}'
  const Warning: char := '\U{26A0}'

  /** A Python argument: a `bool`, any other `int`, or anything else. A `bool` passes the
      `isinstance(number, int)` test but is formatted by its name. */
  datatype PyValue = PyBool(b: bool) | PyInt(i: int) | PyOther

  /** `number_to_reaction`. */
  function NumberToReaction(number: PyValue): (r: string)
    ensures number.PyInt? && 0 <= number.i <= 9 ==> r == [DigitChar(number.i), KeycapMark]
    ensures number == PyInt(10) ==> r == [KeycapTen]
    ensures (number.PyOther? || (number.PyInt? && (number.i < 0 || number.i > 10))) ==> r == [Warning]
    ensures number.PyBool? ==> r == (if number.b then "True" else "False") + [KeycapMark]
  {
    match number
    case PyOther => [Warning]
    case PyBool(b) => (if b then "True" else "False") + [KeycapMark]
    case PyInt(i) =>
      if i == 10 then [KeycapTen]
      else if i > 9 || i < 0 then [Warning]
      else [DigitChar(i), KeycapMark]
  }

  function DigitValue(c: char): int
  {
    if '0' <= c <= '9' then c as int - '0' as int else -1
  }

  /** `reaction_to_number`: `int(reaction[0])`, with -1 when that character is not a digit.
      The empty string raises IndexError, which the `except ValueError` does not catch. */
  function ReactionToNumber(reaction: string): (r: Result<int>)
    ensures reaction == [] <==> r == Err(IndexError)
    ensures reaction != [] ==> r.Ok? && -1 <= r.value <= 9
    ensures reaction != [] && !('0' <= reaction[0] <= '9') ==> r == Ok(-1)
    ensures reaction != [] && '0' <= reaction[0] <= '9' ==> r == Ok(reaction[0] as int - '0' as int)
  {
    if reaction == [] then Err(IndexError) else Ok(DigitValue(reaction[0]))
  }

  /** Round trip: a digit turned into its keycap reaction reads back as the same digit;
      the ten and warning emoji read back as -1. */
  lemma ReactionRoundTrip(n: int)
    ensures 0 <= n <= 9 ==> ReactionToNumber(NumberToReaction(PyInt(n))) == Ok(n)
    ensures !(0 <= n <= 9) ==> ReactionToNumber(NumberToReaction(PyInt(n))) == Ok(-1)
  {
    if 0 <= n <= 9 {
      assert DigitChar(n) as int - '0' as int == n;
    }
  }

  /** A boolean's reaction starts with a letter, so it reads back as -1. */
  lemma BoolReactionRoundTrip(b: bool)
    ensures ReactionToNumber(NumberToReaction(PyBool(b))) == Ok(-1)
  {
    assert NumberToReaction(PyBool(b))[0] == if b then 'T' else 'F';
  }
}
