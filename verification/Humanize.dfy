/** Numbers spoken as English words, and a reader that gets every number back. */
module Humanize {
  import opened Wrappers
  import Decimal
  import Text

  const ONES: seq<string> :=
    ["zero", "one", "two", "three", "four", "five", "six", "seven", "eight", "nine", "ten", "eleven", "twelve", "thirteen",
     "fourteen", "fifteen", "sixteen", "seventeen", "eighteen", "nineteen"]

  const TENS: seq<string> :=
    ["", "", "twenty", "thirty", "forty", "fifty", "sixty", "seventy", "eighty", "ninety"]

  function NumToWords(n: int): string
    decreases n < 0, if n < 0 then -n else n
  {
    if n < 0 then "minus " + NumToWords(-n)
    else if n < 20 then ONES[n]
    else if n < 100 then TENS[n / 10] + if n % 10 == 0 then "" else " " + ONES[n % 10]
    else if n < 1000 then ONES[n / 100] + " hundred" + if n % 100 == 0 then "" else " " + NumToWords(n % 100)
    else if n < 1_000_000 then NumToWords(n / 1000) + " thousand" + if n % 1000 == 0 then "" else " " + NumToWords(n % 1000)
    else Decimal.Print(n)
  }

  // ---------------------------------------------------------------- the reader

  datatype Token = Unit(value: nat) | Hundred | Thousand | Unknown

  function TokenOf(w: string): Token {
    match w
    case "zero" => Unit(0)
    case "one" => Unit(1)
    case "two" => Unit(2)
    case "three" => Unit(3)
    case "four" => Unit(4)
    case "five" => Unit(5)
    case "six" => Unit(6)
    case "seven" => Unit(7)
    case "eight" => Unit(8)
    case "nine" => Unit(9)
    case "ten" => Unit(10)
    case "eleven" => Unit(11)
    case "twelve" => Unit(12)
    case "thirteen" => Unit(13)
    case "fourteen" => Unit(14)
    case "fifteen" => Unit(15)
    case "sixteen" => Unit(16)
    case "seventeen" => Unit(17)
    case "eighteen" => Unit(18)
    case "nineteen" => Unit(19)
    case "twenty" => Unit(20)
    case "thirty" => Unit(30)
    case "forty" => Unit(40)
    case "fifty" => Unit(50)
    case "sixty" => Unit(60)
    case "seventy" => Unit(70)
    case "eighty" => Unit(80)
    case "ninety" => Unit(90)
    case "hundred" => Hundred
    case "thousand" => Thousand
    case _ => Unknown
  }

  /** Thousands read so far, the group being read, and the bound below which its next unit has to be. */
  datatype Reading = Reading(total: nat, group: nat, room: nat) | Garbled

  const NOTHING_READ := Reading(0, 0, 100)

  /** A word out of its place garbles the reading: units have to follow tens, and hundreds and thousands their count. */
  function ReadToken(r: Reading, token: Token): Reading {
    if r.Garbled? then Garbled
    else
      match token
      case Unit(v) =>
        if v < r.room && (v > 0 || r == NOTHING_READ) then Reading(r.total, r.group + v, if v >= 20 then 10 else 0) else Garbled
      case Hundred => if 1 <= r.group < 10 then Reading(r.total, r.group * 100, 100) else Garbled
      case Thousand => if r.total == 0 && r.group >= 1 then Reading(r.group * 1000, 0, 100) else Garbled
      case Unknown => Garbled
  }

  function Read(r: Reading, tokens: seq<Token>): Reading {
    if tokens == [] then r else ReadToken(Read(r, tokens[..|tokens| - 1]), tokens[|tokens| - 1])
  }

  function TokensOf(words: seq<string>): (tokens: seq<Token>)
    ensures |tokens| == |words|
  {
    seq(|words|, i requires 0 <= i < |words| => TokenOf(words[i]))
  }

  function ReadNumber(words: seq<string>): Option<nat> {
    if |words| == 1 && Decimal.ParseNat(words[0]).Some? then Decimal.ParseNat(words[0])
    else
      match Read(NOTHING_READ, TokensOf(words))
      case Reading(total, group, _) => Some(total + group)
      case Garbled => None
  }

  function ReadSigned(words: seq<string>): Option<int>
    requires words != []
  {
    match ReadNumber(if words[0] == "minus" then words[1..] else words)
    case None => None
    case Some(n) => Some(if words[0] == "minus" then 0 - n else n)
  }

  function WordsToNum(s: string): Option<int> {
    ReadSigned(Text.Split(s, ' '))
  }

  // ---------------------------------------------------------------- from a number to its tokens and back

  predicate Speakable(token: Token) {
    match token
    case Unit(v) => v < 20 || (v < 100 && v % 10 == 0)
    case Unknown => false
    case _ => true
  }

  /** The tokens of a number below a million, in speaking order. */
  function TokensFor(n: nat): (tokens: seq<Token>)
    requires n < 1_000_000
    ensures tokens != [] && forall t | t in tokens :: Speakable(t)
  {
    if n < 20 then [Unit(n)]
    else if n < 100 then [Unit(n / 10 * 10)] + if n % 10 == 0 then [] else [Unit(n % 10)]
    else if n < 1000 then [Unit(n / 100), Hundred] + if n % 100 == 0 then [] else TokensFor(n % 100)
    else TokensFor(n / 1000) + [Thousand] + if n % 1000 == 0 then [] else TokensFor(n % 1000)
  }

  lemma {:induction false} ReadParts(r: Reading, a: seq<Token>, b: seq<Token>)
    ensures Read(r, a + b) == Read(Read(r, a), b)
  {
    if b == [] {
      assert a + b == a;
    } else {
      assert (a + b)[..|a + b| - 1] == a + b[..|b| - 1];
      ReadParts(r, a, b[..|b| - 1]);
    }
  }

  lemma ReadOne(r: Reading, token: Token)
    ensures Read(r, [token]) == ReadToken(r, token)
  {
  }

  /** The reading got as far as these thousands and this group. */
  predicate Got(r: Reading, total: nat, group: nat) {
    r.Reading? && r.total == total && r.group == group
  }

  lemma ReadTens(total: nat, group: nat, n: nat)
    requires n < 100 && (n > 0 || (total == 0 && group == 0))
    ensures Got(Read(Reading(total, group, 100), TokensFor(n)), total, group + n)
  {
    var r := Reading(total, group, 100);
    if n < 20 {
      ReadOne(r, Unit(n));
    } else {
      ReadOne(r, Unit(n / 10 * 10));
      if n % 10 != 0 {
        ReadParts(r, [Unit(n / 10 * 10)], [Unit(n % 10)]);
        ReadOne(Read(r, [Unit(n / 10 * 10)]), Unit(n % 10));
      }
    }
  }

  lemma ReadHundred(total: nat, count: nat)
    requires 1 <= count < 10
    ensures Read(Reading(total, 0, 100), [Unit(count), Hundred]) == Reading(total, count * 100, 100)
  {
    assert [Unit(count), Hundred] == [Unit(count)] + [Hundred];
    ReadParts(Reading(total, 0, 100), [Unit(count)], [Hundred]);
    ReadOne(Reading(total, 0, 100), Unit(count));
    ReadOne(Reading(total, count, 0), Hundred);
  }

  lemma ReadHundreds(total: nat, n: nat)
    requires n < 1000 && (n > 0 || total == 0)
    ensures Got(Read(Reading(total, 0, 100), TokensFor(n)), total, n)
  {
    if n < 100 {
      ReadTens(total, 0, n);
    } else {
      var count, rest := n / 100, n % 100;
      var tail := if rest == 0 then [] else TokensFor(rest);
      ReadHundred(total, count);
      assert TokensFor(n) == [Unit(count), Hundred] + tail;
      ReadParts(Reading(total, 0, 100), [Unit(count), Hundred], tail);
      if rest != 0 {
        ReadTens(total, count * 100, rest);
      }
    }
  }

  lemma ReadThousands(n: nat)
    requires n < 1_000_000
    ensures var r := Read(NOTHING_READ, TokensFor(n)); r.Reading? && r.total + r.group == n
  {
    ReadHundreds(0, if n < 1000 then n else n / 1000);
    if n >= 1000 {
      if n % 1000 != 0 {
        ReadHundreds(n / 1000 * 1000, n % 1000);
      }
      ReadGroups(TokensFor(n / 1000), n / 1000, if n % 1000 == 0 then [] else TokensFor(n % 1000), n % 1000);
    }
  }

  lemma ReadGroups(a: seq<Token>, thousands: nat, b: seq<Token>, rest: nat)
    requires thousands >= 1 && Got(Read(NOTHING_READ, a), 0, thousands)
    requires Got(Read(Reading(thousands * 1000, 0, 100), b), thousands * 1000, rest)
    ensures Got(Read(NOTHING_READ, a + [Thousand] + b), thousands * 1000, rest)
  {
    ReadParts(NOTHING_READ, a, [Thousand]);
    ReadOne(Read(NOTHING_READ, a), Thousand);
    ReadParts(NOTHING_READ, a + [Thousand], b);
  }

  // ---------------------------------------------------------------- from tokens to words and back

  function Spell(token: Token): string
    requires Speakable(token)
  {
    match token
    case Unit(v) => if v < 20 then ONES[v] else TENS[v / 10]
    case Hundred => "hundred"
    case Thousand => "thousand"
  }

  lemma SpellReadsBack(token: Token)
    requires Speakable(token)
    ensures TokenOf(Spell(token)) == token
  {
  }

  lemma SpelledWord(token: Token)
    requires Speakable(token)
    ensures var w := Spell(token); w != [] && ' ' !in w && !Decimal.IsDigit(w[0]) && w != "minus"
  {
  }

  function SpellAll(tokens: seq<Token>): (words: seq<string>)
    requires forall t | t in tokens :: Speakable(t)
    ensures |words| == |tokens| && forall i | 0 <= i < |words| :: words[i] == Spell(tokens[i])
  {
    seq(|tokens|, i requires 0 <= i < |tokens| => Spell(tokens[i]))
  }

  function Say(tokens: seq<Token>): string
    requires forall t | t in tokens :: Speakable(t)
  {
    Text.Join(SpellAll(tokens), ' ')
  }

  lemma {:induction false} JoinParts(a: seq<string>, b: seq<string>)
    requires a != [] && b != []
    ensures Text.Join(a + b, ' ') == Text.Join(a, ' ') + " " + Text.Join(b, ' ')
  {
    if |a| == 1 {
      assert (a + b)[1..] == b;
    } else {
      assert (a + b)[1..] == a[1..] + b;
      JoinParts(a[1..], b);
    }
  }

  lemma SayParts(a: seq<Token>, b: seq<Token>)
    requires a != [] && b != [] && forall t | t in a + b :: Speakable(t)
    requires (forall t | t in a :: Speakable(t)) && forall t | t in b :: Speakable(t)
    ensures Say(a + b) == Say(a) + " " + Say(b)
  {
    assert SpellAll(a + b) == SpellAll(a) + SpellAll(b);
    JoinParts(SpellAll(a), SpellAll(b));
  }

  lemma SayOne(token: Token)
    requires Speakable(token)
    ensures Say([token]) == Spell(token)
  {
  }

  lemma Regroup(a: string, b: string)
    ensures a + (" " + b) == a + " " + b
    ensures a + " hundred" + "" == a + " hundred" && a + " thousand" + "" == a + " thousand"
    ensures a + " hundred" == a + " " + "hundred" && a + " thousand" == a + " " + "thousand"
  {
  }

  lemma SaidBelowHundred(n: nat)
    requires n < 100
    ensures NumToWords(n) == Say(TokensFor(n))
  {
    if n < 20 {
      SayOne(Unit(n));
    } else {
      SayOne(Unit(n / 10 * 10));
      if n % 10 != 0 {
        SayOne(Unit(n % 10));
        SayParts([Unit(n / 10 * 10)], [Unit(n % 10)]);
      }
    }
  }

  lemma SaidBelowThousand(n: nat)
    requires n < 1000
    ensures NumToWords(n) == Say(TokensFor(n))
  {
    if n < 100 {
      SaidBelowHundred(n);
    } else {
      SayOne(Unit(n / 100));
      SayOne(Hundred);
      SayParts([Unit(n / 100)], [Hundred]);
      assert [Unit(n / 100), Hundred] == [Unit(n / 100)] + [Hundred];
      Regroup(ONES[n / 100], "");
      if n % 100 != 0 {
        SaidBelowHundred(n % 100);
        SayParts([Unit(n / 100), Hundred], TokensFor(n % 100));
        Regroup(ONES[n / 100] + " hundred", NumToWords(n % 100));
      } else {
        assert TokensFor(n) == [Unit(n / 100), Hundred];
      }
    }
  }

  lemma SayThousands(a: seq<Token>, b: seq<Token>)
    requires a != [] && (forall t | t in a :: Speakable(t)) && forall t | t in b :: Speakable(t)
    ensures Say(a + [Thousand] + b) == Say(a) + " thousand" + if b == [] then "" else " " + Say(b)
  {
    SayOne(Thousand);
    Regroup(Say(a), "");
    SayParts(a, [Thousand]);
    if b == [] {
      assert a + [Thousand] + b == a + [Thousand];
    } else {
      SayParts(a + [Thousand], b);
      Regroup(Say(a) + " thousand", Say(b));
    }
  }

  lemma Said(n: nat)
    requires n < 1_000_000
    ensures NumToWords(n) == Say(TokensFor(n))
  {
    if n < 1000 {
      SaidBelowThousand(n);
    } else {
      SaidBelowThousand(n / 1000);
      SaidBelowThousand(n % 1000);
      SayThousands(TokensFor(n / 1000), if n % 1000 == 0 then [] else TokensFor(n % 1000));
    }
  }

  // ---------------------------------------------------------------- reading back what was said

  lemma SpelledReadsBack(n: nat)
    requires n < 1_000_000
    ensures
      var words := SpellAll(TokensFor(n));
      && (forall w | w in words :: ' ' !in w) && words[0] != "minus" && ReadNumber(words) == Some(n)
  {
    var tokens := TokensFor(n);
    var words := SpellAll(tokens);
    forall i | 0 <= i < |words|
      ensures TokenOf(words[i]) == tokens[i] && ' ' !in words[i] && words[i] != "minus" && Decimal.ParseNat(words[i]).None?
    {
      SpellReadsBack(tokens[i]);
      SpelledWord(tokens[i]);
    }
    assert TokensOf(words) == tokens;
    ReadThousands(n);
  }

  lemma SplitsBack(n: nat)
    ensures var words := Text.Split(NumToWords(n), ' '); words[0] != "minus" && ReadNumber(words) == Some(n)
  {
    if n < 1_000_000 {
      Said(n);
      SpelledReadsBack(n);
      Text.SplitJoin(SpellAll(TokensFor(n)), ' ');
    } else {
      Decimal.PrintCharacters(n);
      Text.IndexOfAbsent(Decimal.Print(n), ' ');
      Decimal.ParsePrintNat(n);
      assert Decimal.IsDigit(Decimal.Print(n)[0]);
    }
  }

  /** Every integer is recovered from its words. */
  lemma ReadsBack(n: int)
    ensures WordsToNum(NumToWords(n)) == Some(n)
  {
    if n < 0 {
      NegativeReadsBack(n, -n, NumToWords(n));
    } else {
      NaturalReadsBack(n, NumToWords(n));
    }
  }

  lemma NaturalReadsBack(n: nat, s: string)
    requires s == NumToWords(n)
    ensures WordsToNum(s) == Some(n)
  {
    SplitsBack(n);
    ReadsPlain(Text.Split(s, ' '), n);
  }

  lemma NegativeReadsBack(n: int, m: nat, s: string)
    requires n == 0 - m < 0 && s == NumToWords(n)
    ensures WordsToNum(s) == Some(n)
  {
    SplitsBack(m);
    SaidMinus(n, m);
    SplitMinus(s, NumToWords(m));
    ReadsMinus(Text.Split(s, ' '), Text.Split(NumToWords(m), ' '), m);
  }

  lemma SaidMinus(n: int, m: nat)
    requires n == 0 - m < 0
    ensures NumToWords(n) == "minus" + [' '] + NumToWords(m)
  {
    assert "minus " == "minus" + [' '];
  }

  lemma SplitMinus(s: string, rest: string)
    requires s == "minus" + [' '] + rest
    ensures Text.Split(s, ' ') == ["minus"] + Text.Split(rest, ' ')
  {
    Text.SplitFirst("minus", ' ', rest);
  }

  lemma ReadsMinus(words: seq<string>, rest: seq<string>, n: nat)
    requires words == ["minus"] + rest && ReadNumber(rest) == Some(n)
    ensures ReadSigned(words) == Some(0 - n)
  {
    assert words[1..] == rest;
  }

  lemma ReadsPlain(words: seq<string>, n: nat)
    requires words != [] && words[0] != "minus" && ReadNumber(words) == Some(n)
    ensures ReadSigned(words) == Some(n)
  {
  }

  /** So no two integers are ever spoken alike. */
  lemma NumToWordsInjective(a: int, b: int)
    requires NumToWords(a) == NumToWords(b)
    ensures a == b
  {
    ReadsBack(a);
    ReadsBack(b);
  }

  /** The reader minds the order: words that name the right parts in another order are not a number to it. */
  lemma OrderMatters()
    ensures Read(NOTHING_READ, [Unit(2), Unit(40)]) == Garbled
    ensures Read(NOTHING_READ, [Unit(1), Unit(5), Hundred]) == Garbled
    ensures Read(NOTHING_READ, [Hundred, Unit(5)]) == Garbled
  {
    assert [Unit(2), Unit(40)][..1] == [Unit(2)];
    assert [Unit(1), Unit(5), Hundred][..2] == [Unit(1), Unit(5)];
    assert [Unit(1), Unit(5)][..1] == [Unit(1)];
    assert [Hundred, Unit(5)][..1] == [Hundred];
  }
}
