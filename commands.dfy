/** The command line of the resource manager (project_3/main.cpp): splitting a
    line into words as `istringstream >> string` does, recognising the four
    commands, and reading a request or release back into numbers. */
module Commands {

  /** Number of resource types; an RQ/RL command carries a customer number
      followed by one amount per resource type. */
  const NumberOfResources := 4

  /** The characters `isspace` accepts in the C locale: space, tab, newline,
      vertical tab, form feed and carriage return. */
  predicate IsSpace(c: char)
  {
    c == ' ' || 9 <= c as int <= 13
  }

  predicate IsDigit(c: char)
  {
    '0' <= c <= '9'
  }

  /** A non-empty run of decimal digits. */
  predicate IsDigits(d: string)
  {
    |d| > 0 && forall k :: 0 <= k < |d| ==> IsDigit(d[k])
  }

  /** A token RQ/RL accepts as an amount: digits, optionally preceded by a
      single minus sign. */
  predicate IsNumeral(t: string)
  {
    IsDigits(t) || (|t| > 1 && t[0] == '-' && IsDigits(t[1..]))
  }

  /** A word as the stream extracts it: non-empty and without white space. */
  predicate IsWord(w: string)
  {
    |w| > 0 && forall k :: 0 <= k < |w| ==> !IsSpace(w[k])
  }

  // ---------------------------------------------------------------------
  // Splitting into words
  // ---------------------------------------------------------------------

  /** The first position at or after i that is white space, or the end. */
  function WordEnd(s: string, i: nat): (k: nat)
    requires i <= |s|
    ensures i <= k <= |s|
    ensures i < |s| && !IsSpace(s[i]) ==> i < k
    ensures k < |s| ==> IsSpace(s[k])
    ensures forall p :: i <= p < k ==> !IsSpace(s[p])
    decreases |s| - i
  {
    if i < |s| && !IsSpace(s[i]) then WordEnd(s, i + 1) else i
  }

  /** The words that repeated `ss >> token` extracts from s: white space is
      skipped, then the longest run of other characters is one word. */
  function Tokens(s: string): seq<string>
    decreases |s|
  {
    if s == [] then []
    else if IsSpace(s[0]) then Tokens(s[1..])
    else
      var e := WordEnd(s, 0);
      [s[..e]] + Tokens(s[e..])
  }

  /** Every extracted token is a word. */
  lemma {:induction false} TokensAreWords(s: string)
    ensures forall k :: 0 <= k < |Tokens(s)| ==> IsWord(Tokens(s)[k])
    decreases |s|
  {
    if s != [] {
      if IsSpace(s[0]) {
        TokensAreWords(s[1..]);
      } else {
        var e := WordEnd(s, 0);
        TokensAreWords(s[e..]);
      }
    }
  }

  /** Words joined by single spaces. */
  function Unwords(ws: seq<string>): string
  {
    if ws == [] then ""
    else if |ws| == 1 then ws[0]
    else ws[0] + " " + Unwords(ws[1..])
  }

  lemma {:induction false} WordEndAt(w: string, r: string, i: nat)
    requires IsWord(w) && (r == [] || IsSpace(r[0])) && i <= |w|
    ensures WordEnd(w + r, i) == |w|
    decreases |w| - i
  {
    var s := w + r;
    if i < |w| {
      assert s[i] == w[i];
      WordEndAt(w, r, i + 1);
    } else if r != [] {
      assert s[i] == r[0];
    }
  }

  /** A word at the front of s, followed by the end or by white space, is the
      first token. */
  lemma LeadingWord(w: string, r: string)
    requires IsWord(w) && (r == [] || IsSpace(r[0]))
    ensures Tokens(w + r) == [w] + Tokens(r)
  {
    var s := w + r;
    assert s[0] == w[0];
    WordEndAt(w, r, 0);
    assert s[..|w|] == w && s[|w|..] == r;
  }

  /** Splitting words joined by single spaces gives the words back. */
  lemma {:induction false} TokensOfUnwords(ws: seq<string>)
    requires forall k :: 0 <= k < |ws| ==> IsWord(ws[k])
    ensures Tokens(Unwords(ws)) == ws
  {
    if ws == [] {
    } else if |ws| == 1 {
      LeadingWord(ws[0], "");
      assert ws[0] + "" == ws[0];
    } else {
      var w, rest := ws[0], Unwords(ws[1..]);
      assert Unwords(ws) == w + (" " + rest);
      LeadingWord(w, " " + rest);
      assert (" " + rest)[1..] == rest;
      TokensOfUnwords(ws[1..]);
      assert ws == [w] + ws[1..];
    }
  }

  /** Lines 77-84: the tokenising loop; `rest` is what the stream has not
      consumed yet. */
  method Tokenize(s: string) returns (tokens: seq<string>)
    ensures tokens == Tokens(s)
    ensures forall k :: 0 <= k < |tokens| ==> IsWord(tokens[k])
  {
    tokens := [];
    var rest := s;
    while rest != []
      invariant tokens + Tokens(rest) == Tokens(s)
      decreases |rest|
    {
      if IsSpace(rest[0]) {
        rest := rest[1..];
      } else {
        var e := WordEnd(rest, 0);
        tokens := tokens + [rest[..e]];
        rest := rest[e..];
      }
    }
    TokensAreWords(s);
  }

  // ---------------------------------------------------------------------
  // Validating a command
  // ---------------------------------------------------------------------

  /** Lines 108-120, for one token: an optional leading minus, then at least
      one character, all of them digits. */
  method CheckAmount(t: string) returns (ok: bool)
    ensures ok <==> IsNumeral(t)
  {
    if |t| == 0 {
      return false;
    }
    var start := if t[0] == '-' then 1 else 0;
    if start == 1 && |t| == 1 {
      return false;
    }
    for j := start to |t|
      invariant forall k :: start <= k < j ==> IsDigit(t[k])
    {
      if !IsDigit(t[j]) {
        assert !IsNumeral(t) by {
          if start == 1 {
            assert t[1..][j - 1] == t[j];
          }
        }
        return false;
      }
    }
    if start == 1 {
      assert forall k :: 0 <= k < |t| - 1 ==> t[1..][k] == t[k + 1];
    }
    return true;
  }

  /** Lines 76-126: 0 = invalid, 1 = RQ, 2 = RL, 3 = `*`, 4 = EXIT. A request
      or release needs exactly the command word, a customer number and one
      amount per resource type, each of them a numeral. */
  method CheckCommandValid(command: string) returns (kind: int)
    ensures 0 <= kind <= 4
    ensures Tokens(command) == [] ==> kind == 0
    ensures kind == 3 <==> Tokens(command) == ["*"]
    ensures kind == 4 <==> Tokens(command) == ["EXIT"]
    ensures kind == 1 <==> IsRequestOrRelease(Tokens(command), "RQ")
    ensures kind == 2 <==> IsRequestOrRelease(Tokens(command), "RL")
  {
    var tokens := Tokenize(command);
    if tokens == [] {
      return 0;
    }
    var cmd := tokens[0];
    if cmd == "*" {
      return if |tokens| == 1 then 3 else 0;
    }
    if cmd == "EXIT" {
      return if |tokens| == 1 then 4 else 0;
    }
    if cmd == "RQ" || cmd == "RL" {
      if |tokens| != 2 + NumberOfResources {
        return 0;
      }
      for i := 1 to |tokens|
        invariant forall k :: 1 <= k < i ==> IsNumeral(tokens[k])
      {
        var ok := CheckAmount(tokens[i]);
        if !ok {
          return 0;
        }
      }
      return if cmd == "RQ" then 1 else 2;
    }
    return 0;
  }

  /** The shape of a request (name "RQ") or a release (name "RL"). */
  predicate IsRequestOrRelease(tokens: seq<string>, name: string)
  {
    && |tokens| == 2 + NumberOfResources
    && tokens[0] == name
    && forall k :: 1 <= k < |tokens| ==> IsNumeral(tokens[k])
  }

  // ---------------------------------------------------------------------
  // Reading numbers
  // ---------------------------------------------------------------------

  function DigitValue(c: char): nat
    requires IsDigit(c)
  {
    c as int - '0' as int
  }

  /** The value of a run of decimal digits, most significant first. */
  function DigitsValue(d: string): nat
    requires forall k :: 0 <= k < |d| ==> IsDigit(d[k])
  {
    if d == [] then 0 else 10 * DigitsValue(d[..|d| - 1]) + DigitValue(d[|d| - 1])
  }

  /** The integer `ss >> int` reads from a numeral. */
  function NumeralValue(t: string): int
    requires IsNumeral(t)
  {
    var magnitude: int := if t[0] == '-' then DigitsValue(t[1..]) else DigitsValue(t);
    if t[0] == '-' then -magnitude else magnitude
  }

  /** Decimal notation of a natural number, without leading zeros. */
  function ShowNat(n: nat): (d: string)
    ensures IsDigits(d)
  {
    if n < 10 then [('0' as int + n) as char]
    else ShowNat(n / 10) + [('0' as int + n % 10) as char]
  }

  /** Decimal notation of an integer, with a leading minus when negative. */
  function Show(n: int): string
  {
    if n < 0 then "-" + ShowNat(-n) else ShowNat(n)
  }

  lemma {:induction false} DigitsValueOfShowNat(n: nat)
    ensures DigitsValue(ShowNat(n)) == n
  {
    if n >= 10 {
      DigitsValueOfShowNat(n / 10);
      var d := ShowNat(n);
      assert d[..|d| - 1] == ShowNat(n / 10);
    }
  }

  /** Every integer, written in decimal, is a numeral that reads back as
      itself. */
  lemma ShowIsNumeral(n: int)
    ensures IsNumeral(Show(n)) && NumeralValue(Show(n)) == n
  {
    if n < 0 {
      var d := ShowNat(-n);
      assert ("-" + d)[1..] == d;
      DigitsValueOfShowNat(-n);
    } else {
      DigitsValueOfShowNat(n);
    }
  }

  /** Lines 129-141. The command word is skipped, the customer number is read
      from the second token and amount i from token i + 2; an amount that is
      missing reads as 0. The customer number must be present: when it is
      not, the source leaves it uninitialised. */
  method CommandToArray(command: string) returns (customerNum: int, request: seq<int>)
    requires |Tokens(command)| >= 2
    requires forall k :: 1 <= k < |Tokens(command)| ==> IsNumeral(Tokens(command)[k])
    ensures customerNum == NumeralValue(Tokens(command)[1])
    ensures |request| == NumberOfResources
    ensures forall i :: 0 <= i < NumberOfResources ==>
              request[i] == if i + 2 < |Tokens(command)| then NumeralValue(Tokens(command)[i + 2]) else 0
  {
    var tokens := Tokenize(command);
    var pos := 1;
    customerNum := NumeralValue(tokens[pos]);
    pos := pos + 1;
    request := [];
    for i := 0 to NumberOfResources
      invariant pos == i + 2 && |request| == i
      invariant forall k :: 0 <= k < i ==> request[k] == if k + 2 < |tokens| then NumeralValue(tokens[k + 2]) else 0
    {
      if pos < |tokens| {
        request := request + [NumeralValue(tokens[pos])];
      } else {
        request := request + [0];
      }
      pos := pos + 1;
    }
  }

  /** The command line that asks for `amounts` on behalf of `customer`
      (name "RQ") or gives them back (name "RL"). */
  function FormatCommand(name: string, customer: int, amounts: seq<int>): string
    requires |amounts| == NumberOfResources
  {
    Unwords([name, Show(customer)] + seq(NumberOfResources, i requires 0 <= i < NumberOfResources => Show(amounts[i])))
  }

  /** Round trip: a formatted RQ/RL line is recognised as that command, and
      its customer number and amounts read back unchanged. */
  lemma FormatRoundTrip(name: string, customer: int, amounts: seq<int>)
    requires name == "RQ" || name == "RL"
    requires |amounts| == NumberOfResources
    ensures IsRequestOrRelease(Tokens(FormatCommand(name, customer, amounts)), name)
    ensures NumeralValue(Tokens(FormatCommand(name, customer, amounts))[1]) == customer
    ensures forall i :: 0 <= i < NumberOfResources ==>
              NumeralValue(Tokens(FormatCommand(name, customer, amounts))[i + 2]) == amounts[i]
  {
    var ws := [name, Show(customer)] + seq(NumberOfResources, i requires 0 <= i < NumberOfResources => Show(amounts[i]));
    ShowIsNumeral(customer);
    forall i | 0 <= i < NumberOfResources
      ensures IsNumeral(ws[i + 2]) && NumeralValue(ws[i + 2]) == amounts[i]
    {
      ShowIsNumeral(amounts[i]);
    }
    forall k | 0 <= k < |ws|
      ensures IsWord(ws[k])
    {
      if k >= 1 {
        NumeralIsWord(ws[k]);
      }
    }
    TokensOfUnwords(ws);
  }

  lemma NumeralIsWord(t: string)
    requires IsNumeral(t)
    ensures IsWord(t)
  {
    if !IsDigits(t) {
      assert forall k :: 1 <= k < |t| ==> t[k] == t[1..][k - 1];
    }
  }
}
