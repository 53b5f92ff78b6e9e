/**
 * The per-field extraction rules of the x-kom crawler, as functions of the
 * text of the matched elements.
 */
module FieldRules {
  import opened Wrappers
  import opened PyStr
  import opened Numerals
  import opened Html

  /** Some character is a digit. */
  predicate HasDigit(s: string) { exists i :: 0 <= i < |s| && IsDigit(s[i]) }

  /** Every character is a digit or an ASCII space. */
  predicate DigitsAndSpaces(s: string) { forall i :: 0 <= i < |s| ==> IsDigit(s[i]) || s[i] == ' ' }

  /** `int(text.split(",")[0].replace(" ", ""))` */
  function ParsePrice(text: string): Option<nat>
  {
    ParseNat(Remove(First(text, ','), ' '))
  }

  /** The price parses exactly when the text before the first comma has a
      digit and nothing but digits and spaces; the price then has at most as
      many digits as that text has characters. */
  lemma PriceParses(text: string)
    ensures ParsePrice(text).Some? <==> HasDigit(First(text, ',')) && DigitsAndSpaces(First(text, ','))
    ensures ParsePrice(text).Some? ==> ParsePrice(text).value < Pow10(|First(text, ',')|)
  {
    var w := First(text, ',');
    var v := Remove(w, ' ');
    SpacesRemoved(w);
    if ParseNat(v).Some? {
      Pow10Monotone(|v|, |w|);
    }
  }

  /** What deleting the spaces leaves is a digit string exactly when the text
      was digits and spaces, and non-empty exactly when the text had a digit. */
  lemma SpacesRemoved(w: string)
    ensures (|Remove(w, ' ')| > 0 && AllDigits(Remove(w, ' '))) <==> HasDigit(w) && DigitsAndSpaces(w)
  {
    var v := Remove(w, ' ');
    if DigitsAndSpaces(w) {
      forall i | 0 <= i < |v| ensures IsDigit(v[i]) {
        assert v[i] in v;
        RemoveMembers(w, ' ', v[i]);
        var j :| 0 <= j < |w| && w[j] == v[i];
      }
      if HasDigit(w) {
        var j :| 0 <= j < |w| && IsDigit(w[j]);
        assert w[j] in w;
        RemoveMembers(w, ' ', w[j]);
      }
    } else {
      var j :| 0 <= j < |w| && !IsDigit(w[j]) && w[j] != ' ';
      assert w[j] in w;
      RemoveMembers(w, ' ', w[j]);
      var k :| 0 <= k < |v| && v[k] == w[j];
    }
    if |v| > 0 && AllDigits(v) {
      assert v[0] in v;
      RemoveMembers(w, ' ', v[0]);
      var j :| 0 <= j < |w| && w[j] == v[0];
    }
  }

  lemma {:induction false} Pow10Monotone(a: nat, b: nat)
    requires a <= b
    ensures Pow10(a) <= Pow10(b)
    decreases b
  {
    if a < b {
      Pow10Monotone(a, b - 1);
    }
  }

  /** `text.split(" ")[-1][-2:]` */
  function Currency(text: string): (r: string)
    ensures |r| == if |Last(text, ' ')| <= 2 then |Last(text, ' ')| else 2
    ensures IsSuffix(r, Last(text, ' ')) && IsSuffix(r, text)
    ensures ' ' !in r
  {
    TakeLast(Last(text, ' '), 2)
  }

  /** `int(text.split(" ")[0][1:])` */
  function ParseReviewCount(text: string): Option<nat>
  {
    ParseNat(Drop(First(text, ' '), 1))
  }

  /** The count parses exactly when the first token is one character of any
      kind followed by at least one digit and only digits. */
  lemma ReviewCountParses(text: string)
    ensures ParseReviewCount(text).Some? <==> |First(text, ' ')| >= 2 && AllDigits(First(text, ' ')[1..])
    ensures ParseReviewCount(text).Some? ==> ParseReviewCount(text).value < Pow10(|First(text, ' ')| - 1)
  {
    var t := First(text, ' ');
    if |t| >= 1 {
      assert Drop(t, 1) == t[1..];
    }
  }

  /** `title[-4:]`, kept when `float` accepts it. */
  function ParseRating(title: string): (r: Option<string>)
    ensures r.Some? ==> |r.value| == (if |title| <= 4 then |title| else 4) && IsSuffix(r.value, title)
    ensures r.Some? <==> FloatParses(TakeLast(title, 4))
  {
    var t := TakeLast(title, 4);
    assert IsSuffix(t, title);
    if FloatParses(t) then Some(t) else None
  }

  /** The text of every element, in order: the loop filling `reviews`. */
  function Texts(elements: seq<Element>): (ts: seq<string>)
    ensures |ts| == |elements|
    ensures forall i :: 0 <= i < |elements| ==> ts[i] == elements[i].text
    decreases |elements|
  {
    if elements == [] then [] else [elements[0].text] + Texts(elements[1..])
  }

  /** Everything after the first comma is ignored: the fraction is truncated. */
  lemma PriceTruncatesFraction(whole: string, fraction: string)
    requires ',' !in whole
    ensures ParsePrice(whole + "," + fraction) == ParseNat(Remove(whole, ' '))
  {
    assert whole + "," + fraction == whole + [','] + fraction;
    SplitAfterHead(whole, ',', fraction);
  }

  /** Spaces anywhere in the price text make no difference. */
  lemma PriceIgnoresSpaces(text: string)
    ensures ParsePrice(Remove(text, ' ')) == ParsePrice(text)
  {
    FirstOfRemove(text, ',', ' ');
    var head := Remove(First(text, ','), ' ');
    RemoveIdentity(head, ' ');
  }

  /** A whole number written out, then a comma and any fraction, parses to that number. */
  lemma PriceOfShown(n: nat, fraction: string)
    ensures ParsePrice(ShowNat(n) + "," + fraction) == Some(n)
  {
    var w := ShowNat(n);
    assert forall i :: 0 <= i < |w| ==> w[i] != ',' && w[i] != ' ';
    PriceTruncatesFraction(w, fraction);
    RemoveIdentity(w, ' ');
    ParseShow(n);
  }

  /** Digit groups separated by single spaces, then a comma and any fraction:
      the groups are read as one number, their digits run together. */
  lemma PriceOfGroups(groups: seq<string>, fraction: string)
    requires |groups| >= 1
    requires forall i :: 0 <= i < |groups| ==> AllDigits(groups[i])
    ensures ParsePrice(Join(groups, ' ') + "," + fraction) == ParseNat(Concat(groups))
  {
    forall i | 0 <= i < |groups| ensures ',' !in groups[i] && ' ' !in groups[i] {
      DigitsLack(groups[i], ',');
      DigitsLack(groups[i], ' ');
    }
    JoinLacks(groups, ' ', ',');
    PriceTruncatesFraction(Join(groups, ' '), fraction);
    RemoveJoin(groups, ' ');
  }

  /** Two groups: the high group shifted by the width of the low one. */
  lemma PriceOfTwoGroups(high: string, low: string, fraction: string)
    requires |high| > 0 && AllDigits(high) && AllDigits(low)
    ensures ParsePrice(high + " " + low + "," + fraction) == Some(ValueOf(high) * Pow10(|low|) + ValueOf(low))
  {
    var groups := [high, low];
    forall i | 0 <= i < |groups| ensures AllDigits(groups[i]) {
    }
    PriceOfGroups(groups, fraction);
    JoinConcatTwo(high, low, ' ');
    var text := high + " " + low + "," + fraction;
    assert text == Join(groups, ' ') + "," + fraction;
    ParseConcat(high, low);
  }

  lemma JoinConcatTwo(a: string, b: string, sep: char)
    ensures Join([a, b], sep) == a + [sep] + b
    ensures Concat([a, b]) == a + b
  {
    var parts := [a, b];
    assert parts[1..] == [b];
    assert Join(parts[1..], sep) == b;
    assert Concat(parts[1..]) == b + Concat([]);
  }

  lemma DigitsLack(s: string, c: char)
    requires AllDigits(s) && !IsDigit(c)
    ensures c !in s
  {
  }

  /** The last two characters of the last token. */
  lemma CurrencyOfPrice(price: string, code: string)
    requires ' ' !in code && |code| >= 2
    ensures Currency(price + " " + code) == code[|code| - 2..]
  {
    var parts := Split(price, ' ');
    JoinSplit(price, ' ');
    SplitPiecesLackSep(price, ' ');
    var all := parts + [code];
    assert forall i :: 0 <= i < |all| ==> ' ' !in all[i];
    JoinAppend(parts, code, ' ');
    SplitJoin(all, ' ');
  }

  lemma {:induction false} JoinAppend(parts: seq<string>, tail: string, sep: char)
    requires |parts| >= 1
    ensures Join(parts + [tail], sep) == Join(parts, sep) + [sep] + tail
    decreases |parts|
  {
    if |parts| > 1 {
      JoinAppend(parts[1..], tail, sep);
      assert (parts + [tail])[1..] == parts[1..] + [tail];
    } else {
      assert (parts + [tail])[1..] == [tail];
    }
  }

  /** A count written between an opening character and a word is read back. */
  lemma ReviewCountOf(opening: char, n: nat, word: string)
    requires opening != ' '
    ensures ParseReviewCount([opening] + ShowNat(n) + " " + word) == Some(n)
  {
    var head := [opening] + ShowNat(n);
    assert forall i :: 0 <= i < |head| ==> head[i] != ' ';
    assert [opening] + ShowNat(n) + " " + word == head + [' '] + word;
    SplitAfterHead(head, ' ', word);
    assert Drop(head, 1) == ShowNat(n);
    ParseShow(n);
  }

  /** The price text of the crawler's target markup. */
  lemma PriceExample()
    ensures ParsePrice("1 234,00 zł") == Some(1234)
  {
    GroupedPrice();
    assert "1 234,00 zł" == "1" + " " + "234" + "," + "00 zł";
  }

  lemma GroupedPrice()
    ensures ParsePrice("1" + " " + "234" + "," + "00 zł") == Some(1234)
  {
    PriceOfTwoGroups("1", "234", "00 zł");
    assert ValueOf("1") == 1 by { assert "1"[..0] == []; }
    ParseShow(234);
    assert ShowNat(234) == "234";
    assert ValueOf("234") == 234;
    assert Pow10(3) == 1000 by {
      assert Pow10(1) == 10;
      assert Pow10(2) == 100;
    }
  }

  lemma CurrencyExample()
    ensures Currency("1 234,00 zł") == "zł"
  {
    CurrencyOfPrice("1 234,00", "zł");
    assert "1 234,00 zł" == "1 234,00" + " " + "zł";
  }

  lemma ReviewCountExample()
    ensures ParseReviewCount("(128 opinii)") == Some(128)
  {
    ReviewCountOf('(', 128, "opinii)");
    assert ShowNat(128) == "128";
    assert "(128 opinii)" == ['('] + ShowNat(128) + " " + "opinii)";
  }

  /** Any title ending in four characters that `float` accepts gives those four. */
  lemma RatingOfSuffix(prefix: string, tail: string)
    requires |tail| == 4 && FloatParses(tail)
    ensures ParseRating(prefix + tail) == Some(tail)
  {
    assert (prefix + tail)[|prefix|..] == tail;
  }

  /** The fixed four-character window: a rating written with a single digit
      drags a letter into the window, and the title no longer parses. */
  lemma RatingWindowFragile()
    ensures ParseRating("Rated 4") == None
  {
    var t := "ed 4";
    assert TakeLast("Rated 4", 4) == t;
    NoPadding(t);
    if FloatParses(t) {
      FloatChars(t);
    }
  }

  /** The shop's rating form, a space, a digit, a point and a digit, at the end
      of any title: the stripped window is a decimal, so the four characters,
      space included, are the rating. */
  lemma RatingOfPadded(prefix: string, whole: char, tenths: char)
    requires IsDigit(whole) && IsDigit(tenths)
    ensures ParseRating(prefix + [' ', whole, '.', tenths]) == Some([' ', whole, '.', tenths])
  {
    var digits := [whole, '.', tenths];
    var t := [' '] + digits;
    StripLeading(' ', digits);
    NoPadding(digits);
    assert ShowNat(DigitValue(whole)) == [whole];
    DecimalOfShow(DigitValue(whole), [tenths]);
    assert [whole] + "." + [tenths] == digits;
    assert t == [' ', whole, '.', tenths];
    RatingOfSuffix(prefix, t);
  }
}
