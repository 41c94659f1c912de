/**
 * The pin-list parsing of backend/app/api/peripheral.py: a device's
 * available_gpio_pins column is a comma-separated string, read as
 * [int(p.strip()) for p in (pins or '').split(',') if p.strip().isdigit()].
 */
module Pins {
  import opened Wrappers

  /** The characters Python's str.strip() removes: those for which str.isspace() holds. */
  predicate IsSpace(c: char) {
    var n := c as int;
    || n == 0x20 || 0x09 <= n <= 0x0D || 0x1C <= n <= 0x1F || n == 0x85 || n == 0xA0
    || n == 0x1680 || 0x2000 <= n <= 0x200A || n == 0x2028 || n == 0x2029
    || n == 0x202F || n == 0x205F || n == 0x3000
  }

  /** Decimal digits; the model reads only ASCII digits (see README). */
  predicate IsDigit(c: char) {
    '0' <= c <= '9'
  }

  /** str.isdigit(): non-empty and digits only. */
  predicate IsDigits(s: string) {
    |s| > 0 && forall i :: 0 <= i < |s| ==> IsDigit(s[i])
  }

  /** The pieces joined back with sep. */
  function Join(parts: seq<string>, sep: char): string {
    if parts == [] then ""
    else if |parts| == 1 then parts[0]
    else parts[0] + [sep] + Join(parts[1..], sep)
  }

  /** str.split(sep): the pieces between separators, at least one, none containing sep. */
  function Split(s: string, sep: char): (parts: seq<string>)
    ensures |parts| >= 1
    ensures forall k :: 0 <= k < |parts| ==> sep !in parts[k]
    ensures Join(parts, sep) == s
  {
    if s == [] then [""]
    else
      var rest := Split(s[1..], sep);
      if s[0] == sep then
        assert Join([""] + rest, sep) == [sep] + Join(rest, sep);
        [""] + rest
      else
        var first := [s[0]] + rest[0];
        assert Join([first] + rest[1..], sep) == [s[0]] + Join(rest, sep) by {
          if |rest| > 1 {
            assert ([first] + rest[1..])[1..] == rest[1..];
          }
        }
        [first] + rest[1..]
  }

  /** Splitting what was joined from separator-free pieces gives the pieces back. */
  lemma {:induction false} SplitJoin(parts: seq<string>, sep: char)
    requires |parts| >= 1
    requires forall k :: 0 <= k < |parts| ==> sep !in parts[k]
    ensures Split(Join(parts, sep), sep) == parts
  {
    if |parts| == 1 {
      SplitNoSeparator(parts[0], sep);
    } else {
      SplitJoin(parts[1..], sep);
      SplitAfterPiece(parts[0], Join(parts[1..], sep), sep);
    }
  }

  lemma {:induction false} SplitNoSeparator(s: string, sep: char)
    requires sep !in s
    ensures Split(s, sep) == [s]
  {
    if s != [] {
      SplitNoSeparator(s[1..], sep);
    }
  }

  /** A leading character other than the separator joins the first piece. */
  lemma SplitCons(c: char, t: string, sep: char)
    requires c != sep
    ensures Split([c] + t, sep) == [[c] + Split(t, sep)[0]] + Split(t, sep)[1..]
  {
    assert ([c] + t)[0] == c && ([c] + t)[1..] == t;
  }

  lemma {:induction false} SplitAfterPiece(piece: string, rest: string, sep: char)
    requires sep !in piece
    ensures Split(piece + [sep] + rest, sep) == [piece] + Split(rest, sep)
  {
    if piece == [] {
      assert piece + [sep] + rest == [sep] + rest;
      assert ([sep] + rest)[1..] == rest;
    } else {
      var t := piece[1..] + [sep] + rest;
      assert piece + [sep] + rest == [piece[0]] + t;
      SplitAfterPiece(piece[1..], rest, sep);
      SplitCons(piece[0], t, sep);
      assert [piece[0]] + piece[1..] == piece;
    }
  }

  /** str.lstrip(): the suffix left after the leading whitespace. */
  function LStrip(s: string): (r: string)
    ensures |r| <= |s|
    ensures r == [] || !IsSpace(r[0])
    ensures forall i :: 0 <= i < |s| - |r| ==> IsSpace(s[i])
  {
    if s != [] && IsSpace(s[0]) then LStrip(s[1..]) else s
  }

  /** lstrip() only drops characters from the front. */
  lemma {:induction false} LStripIsSuffix(s: string)
    ensures LStrip(s) == s[|s| - |LStrip(s)|..]
  {
    if s != [] && IsSpace(s[0]) {
      LStripIsSuffix(s[1..]);
    }
  }

  /** str.rstrip(): the prefix left before the trailing whitespace. */
  function RStrip(s: string): (r: string)
    ensures |r| <= |s|
    ensures r == [] || !IsSpace(r[|r| - 1])
    ensures forall i :: |r| <= i < |s| ==> IsSpace(s[i])
  {
    if s != [] && IsSpace(s[|s| - 1]) then RStrip(s[..|s| - 1]) else s
  }

  /** rstrip() only drops characters from the back. */
  lemma {:induction false} RStripIsPrefix(s: string)
    ensures RStrip(s) == s[..|RStrip(s)|]
  {
    if s != [] && IsSpace(s[|s| - 1]) {
      RStripIsPrefix(s[..|s| - 1]);
    }
  }

  /** str.strip() */
  function Strip(s: string): string {
    RStrip(LStrip(s))
  }

  /** A string with no whitespace at either end is left as it is by strip(). */
  lemma StripKeepsTrimmed(s: string)
    requires s == [] || (!IsSpace(s[0]) && !IsSpace(s[|s| - 1]))
    ensures Strip(s) == s
  {
  }

  function DigitValue(c: char): nat
    requires IsDigit(c)
  {
    (c as int) - ('0' as int)
  }

  /** int(s) for a string of decimal digits. */
  function DigitsValue(s: string): nat
    requires forall i :: 0 <= i < |s| ==> IsDigit(s[i])
  {
    if s == [] then 0 else 10 * DigitsValue(s[..|s| - 1]) + DigitValue(s[|s| - 1])
  }

  /** str(n) for a natural number. */
  function ShowNat(n: nat): (s: string)
    ensures IsDigits(s)
  {
    var last := ['0' + (n % 10) as char];
    if n < 10 then last else ShowNat(n / 10) + last
  }

  /** int(str(n)) == n */
  lemma {:induction false} ShowNatRoundTrip(n: nat)
    ensures DigitsValue(ShowNat(n)) == n
  {
    var s := ShowNat(n);
    if n >= 10 {
      ShowNatRoundTrip(n / 10);
      assert s[..|s| - 1] == ShowNat(n / 10);
    }
  }

  /** The pins named by the tokens: every token that strips to digits, in order. */
  function ParseTokens(tokens: seq<string>): (pins: seq<nat>)
    ensures |pins| <= |tokens|
  {
    if tokens == [] then []
    else
      var t := Strip(tokens[0]);
      (if IsDigits(t) then [DigitsValue(t)] else []) + ParseTokens(tokens[1..])
  }

  /** The token, once stripped, is a digit string spelling p. */
  predicate Spells(token: string, p: nat) {
    IsDigits(Strip(token)) && DigitsValue(Strip(token)) == p
  }

  /** A pin is parsed exactly when some token strips to digits spelling it. */
  lemma {:induction false} ParseTokensMembers(tokens: seq<string>, p: nat)
    ensures p in ParseTokens(tokens) <==> exists k :: 0 <= k < |tokens| && Spells(tokens[k], p)
  {
    if tokens != [] {
      var rest := tokens[1..];
      ParseTokensMembers(rest, p);
      var t := Strip(tokens[0]);
      var head := if IsDigits(t) then [DigitsValue(t)] else [];
      assert ParseTokens(tokens) == head + ParseTokens(rest);
      assert p in head <==> Spells(tokens[0], p);
      if exists k :: 0 <= k < |tokens| && Spells(tokens[k], p) {
        var k :| 0 <= k < |tokens| && Spells(tokens[k], p);
        if k > 0 {
          assert rest[k - 1] == tokens[k];
        }
      }
      if exists j :: 0 <= j < |rest| && Spells(rest[j], p) {
        var j :| 0 <= j < |rest| && Spells(rest[j], p);
        assert tokens[j + 1] == rest[j];
      }
    }
  }

  /** The parsed pin list of a device's available_gpio_pins value (None is SQL NULL). */
  function ParsePins(pins: Option<string>): seq<nat> {
    ParseTokens(Split(pins.GetOr(""), ','))
  }

  /** The comprehension keeps order and repeats: it works piecewise over any split of the tokens. */
  lemma {:induction false} ParseTokensAppend(a: seq<string>, b: seq<string>)
    ensures ParseTokens(a + b) == ParseTokens(a) + ParseTokens(b)
  {
    if a != [] {
      assert (a + b)[0] == a[0] && (a + b)[1..] == a[1..] + b;
      ParseTokensAppend(a[1..], b);
    } else {
      assert a + b == b;
    }
  }

  /** Splitting at a separator splits the pieces: str.split distributes over a join. */
  lemma {:induction false} SplitAppend(a: string, b: string, sep: char)
    ensures Split(a + [sep] + b, sep) == Split(a, sep) + Split(b, sep)
  {
    if a == [] {
      assert a + [sep] + b == [sep] + b;
      assert ([sep] + b)[1..] == b;
    } else if a[0] == sep {
      var t := a[1..] + [sep] + b;
      assert a + [sep] + b == [sep] + t;
      assert ([sep] + t)[1..] == t;
      SplitAppend(a[1..], b, sep);
    } else {
      var t := a[1..] + [sep] + b;
      assert a + [sep] + b == [a[0]] + t;
      SplitAppend(a[1..], b, sep);
      SplitCons(a[0], t, sep);
      SplitCons(a[0], a[1..], sep);
      assert [a[0]] + a[1..] == a;
    }
  }

  /** A column made of two comma-separated parts lists the first part's pins, then the second's. */
  lemma ParsePinsAppend(c1: string, c2: string)
    ensures ParsePins(Some(c1 + [','] + c2)) == ParsePins(Some(c1)) + ParsePins(Some(c2))
  {
    SplitAppend(c1, c2, ',');
    ParseTokensAppend(Split(c1, ','), Split(c2, ','));
  }

  /** A column of one token lists its value when it strips to digits, and nothing otherwise. */
  lemma ParsePinsOneToken(token: string)
    requires ',' !in token
    ensures ParsePins(Some(token)) == if IsDigits(Strip(token)) then [DigitsValue(Strip(token))] else []
  {
    SplitNoSeparator(token, ',');
  }

  /** The column value that lists the given pins: str(pin) joined by commas. */
  function ShowPins(pins: seq<nat>): string {
    Join(ShowAll(pins), ',')
  }

  function ShowAll(pins: seq<nat>): (r: seq<string>)
    ensures |r| == |pins| && forall k :: 0 <= k < |r| ==> r[k] == ShowNat(pins[k])
  {
    if pins == [] then [] else [ShowNat(pins[0])] + ShowAll(pins[1..])
  }

  /** A NULL or empty column lists no pins. */
  lemma NoPinsListed()
    ensures ParsePins(None) == [] && ParsePins(Some("")) == []
  {
    assert Split("", ',') == [""];
    assert !IsDigits(Strip(""));
  }

  /** Parsing the printed list gives back the pins, in their order. */
  lemma ParsePinsRoundTrip(pins: seq<nat>)
    ensures ParsePins(Some(ShowPins(pins))) == pins
  {
    var shown := ShowAll(pins);
    if pins == [] {
      NoPinsListed();
    } else {
      forall k | 0 <= k < |shown| ensures ',' !in shown[k] {
        ShownIsDigits(pins[k]);
      }
      SplitJoin(shown, ',');
      ParseShown(pins);
    }
  }

  lemma ShownIsDigits(n: nat)
    ensures IsDigits(ShowNat(n)) && Strip(ShowNat(n)) == ShowNat(n)
    ensures ',' !in ShowNat(n)
  {
    var s := ShowNat(n);
    assert !IsSpace(s[0]) && !IsSpace(s[|s| - 1]);
    StripKeepsTrimmed(s);
    assert forall i :: 0 <= i < |s| ==> s[i] != ',';
  }

  lemma {:induction false} ParseShown(pins: seq<nat>)
    ensures ParseTokens(ShowAll(pins)) == pins
  {
    if pins != [] {
      ShownIsDigits(pins[0]);
      ShowNatRoundTrip(pins[0]);
      assert ShowAll(pins)[1..] == ShowAll(pins[1..]);
      ParseShown(pins[1..]);
    }
  }

  /** [pin for pin in all_pins if pin not in used_pins] */
  function WithoutUsed(pins: seq<nat>, used: set<int>): (r: seq<nat>)
    ensures forall x :: x in r <==> x in pins && x !in used
    ensures |r| <= |pins|
  {
    if pins == [] then []
    else (if pins[0] in used then [] else [pins[0]]) + WithoutUsed(pins[1..], used)
  }

  /** The filter keeps the order: it works piecewise over any split of the list. */
  lemma {:induction false} WithoutUsedAppend(a: seq<nat>, b: seq<nat>, used: set<int>)
    ensures WithoutUsed(a + b, used) == WithoutUsed(a, used) + WithoutUsed(b, used)
  {
    if a != [] {
      assert (a + b)[0] == a[0] && (a + b)[1..] == a[1..] + b;
      WithoutUsedAppend(a[1..], b, used);
    } else {
      assert a + b == b;
    }
  }

  /** Nothing is removed when no listed pin is in use. */
  lemma {:induction false} WithoutUsedNoneUsed(pins: seq<nat>, used: set<int>)
    requires forall k :: 0 <= k < |pins| ==> pins[k] !in used
    ensures WithoutUsed(pins, used) == pins
  {
    if pins != [] {
      WithoutUsedNoneUsed(pins[1..], used);
    }
  }
}
