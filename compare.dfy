/** Comparing the computed scoreboard with ESPN's: team names
    are normalised (apostrophe variants unified, other punctuation removed,
    letters lower-cased) before the two name-to-score maps are compared,
    and ESPN's `"W-L"` records are scored as wins minus twice the losses. */
module Compare {
  import opened Wrappers
  import opened Text
  import opened Models

  /** The apostrophe-like characters the first substitution of
      `normalize_key` replaces, as written: the pattern is two adjacent
      literals, `[` and a class body holding the prime, the grave accent and
      the acute accent. */
  const ApostrophesAsWritten: set<char> := {'\U{2032}', '`', '\U{00B4}'}

  /** The set the substitution is meant to replace: the left and right
      single quotation marks as well. */
  const Apostrophes: set<char> := {'\U{2018}', '\U{2019}', '\U{2032}', '`', '\U{00B4}'}

  predicate IsAsciiLetter(c: char) {
    IsAsciiUpper(c) || IsAsciiLower(c)
  }

  /** The characters `[^a-zA-Z0-9\s\']` leaves in place. */
  predicate IsKeyChar(c: char) {
    IsAsciiLetter(c) || IsDigit(c) || IsSpace(c) || c == '\''
  }

  /** The characters a normalised key is made of. */
  predicate IsNormalChar(c: char) {
    IsAsciiLower(c) || IsDigit(c) || IsSpace(c) || c == '\''
  }

  /** `re.sub(<marks>, "'", key)`. */
  function ReplaceApostrophes(marks: set<char>, s: string): (r: string)
    ensures |r| == |s|
  {
    seq(|s|, i requires 0 <= i < |s| => if s[i] in marks then '\'' else s[i])
  }

  /** `re.sub(r'[^a-zA-Z0-9\s\']', '', key)`. */
  function RemoveOthers(s: string): string
    decreases |s|
  {
    if s == [] then []
    else
      var c := s[|s| - 1];
      RemoveOthers(s[..|s| - 1]) + (if IsKeyChar(c) then [c] else [])
  }

  /** `normalize_key` with apostrophe set `marks`. */
  function NormalizeKeyWith(marks: set<char>, key: string): string {
    Lower(RemoveOthers(ReplaceApostrophes(marks, key)))
  }

  /** `normalize_key` as written: a key of lower-case ASCII letters,
      digits, whitespace and `'`, no longer than the name. */
  function NormalizeKeyAsWritten(key: string): (r: string)
    ensures |r| <= |key|
    ensures forall i :: 0 <= i < |r| ==> IsNormalChar(r[i])
  {
    NormalizedChars(ApostrophesAsWritten, key);
    NormalizeKeyWith(ApostrophesAsWritten, key)
  }

  /** `normalize_key` with the intended apostrophe set, with the same
      guarantees. */
  function NormalizeKey(key: string): (r: string)
    ensures |r| <= |key|
    ensures forall i :: 0 <= i < |r| ==> IsNormalChar(r[i])
  {
    NormalizedChars(Apostrophes, key);
    NormalizeKeyWith(Apostrophes, key)
  }

  // A character-by-character reading of the three passes.

  /** What one character of the key becomes. */
  function NormalizeChar(marks: set<char>, c: char): string {
    var d := if c in marks then '\'' else c;
    if IsKeyChar(d) then [LowerChar(d)] else []
  }

  /** Each character of `s` replaced by the string `f` gives it. */
  function Expand(f: char -> string, s: string): string
    decreases |s|
  {
    if s == [] then [] else Expand(f, s[..|s| - 1]) + f(s[|s| - 1])
  }

  /** The key, one character at a time. */
  function NormalizeChars(marks: set<char>, s: string): string {
    Expand(c => NormalizeChar(marks, c), s)
  }

  lemma LowerConcat(a: string, b: string)
    ensures Lower(a + b) == Lower(a) + Lower(b)
  {
  }

  lemma ReplaceConcat(marks: set<char>, a: string, b: string)
    ensures ReplaceApostrophes(marks, a + b) == ReplaceApostrophes(marks, a) + ReplaceApostrophes(marks, b)
  {
  }

  /** The three passes of `normalize_key` amount to mapping each character
      on its own: each becomes itself lower-cased, `'`, or nothing. */
  lemma {:induction false} NormalizeKeyPerChar(marks: set<char>, s: string)
    ensures NormalizeKeyWith(marks, s) == NormalizeChars(marks, s)
    decreases |s|
  {
    if s != [] {
      var init := s[..|s| - 1];
      var c := s[|s| - 1];
      NormalizeKeyPerChar(marks, init);
      assert s == init + [c];
      ReplaceConcat(marks, init, [c]);
      var r := ReplaceApostrophes(marks, init);
      var d := if c in marks then '\'' else c;
      assert ReplaceApostrophes(marks, s) == r + [d];
      assert (r + [d])[..|r + [d]| - 1] == r;
      LowerConcat(RemoveOthers(r), if IsKeyChar(d) then [d] else []);
    }
  }

  lemma {:induction false} ExpandConcat(f: char -> string, a: string, b: string)
    ensures Expand(f, a + b) == Expand(f, a) + Expand(f, b)
    decreases |b|
  {
    if b == [] {
      assert a + b == a;
    } else {
      var init := b[..|b| - 1];
      ExpandConcat(f, a, init);
      assert (a + b)[..|a + b| - 1] == a + init;
    }
  }

  /** Normalising works piece by piece: the key of `a + b` is the key of
      `a` followed by the key of `b`. */
  lemma NormalizeKeyConcat(marks: set<char>, a: string, b: string)
    ensures NormalizeKeyWith(marks, a + b) == NormalizeKeyWith(marks, a) + NormalizeKeyWith(marks, b)
  {
    NormalizeKeyPerChar(marks, a + b);
    NormalizeKeyPerChar(marks, a);
    NormalizeKeyPerChar(marks, b);
    ExpandConcat(c => NormalizeChar(marks, c), a, b);
  }

  /** An apostrophe set that could also stand for a letter, a digit or a
      space would not be an apostrophe set; both sets qualify. */
  predicate MarksOnly(marks: set<char>) {
    forall c :: c in marks ==> !IsKeyChar(c) || c == '\''
  }

  lemma BothSetsMarksOnly()
    ensures MarksOnly(ApostrophesAsWritten) && MarksOnly(Apostrophes)
  {
  }

  /** A normalised key holds only lower-case ASCII letters, digits,
      whitespace and `'`, and is never longer than the key. */
  lemma {:induction false} NormalizedChars(marks: set<char>, key: string)
    ensures forall i :: 0 <= i < |NormalizeKeyWith(marks, key)| ==> IsNormalChar(NormalizeKeyWith(marks, key)[i])
    ensures |NormalizeKeyWith(marks, key)| <= |key|
    decreases |key|
  {
    NormalizeKeyPerChar(marks, key);
    if key != [] {
      var init := key[..|key| - 1];
      NormalizedChars(marks, init);
      NormalizeKeyPerChar(marks, init);
    }
  }

  lemma NormalizeOne(marks: set<char>, c: char)
    ensures NormalizeKeyWith(marks, [c]) == NormalizeChar(marks, c)
  {
    NormalizeKeyPerChar(marks, [c]);
    assert [c][..0] == [];
    assert Expand(x => NormalizeChar(marks, x), [c]) == Expand(x => NormalizeChar(marks, x), []) + NormalizeChar(marks, c);
  }

  /** Every character of the apostrophe set becomes `'` in place. */
  lemma ApostropheKept(marks: set<char>, a: string, c: char, b: string)
    requires c in marks
    ensures NormalizeKeyWith(marks, a + [c] + b) == NormalizeKeyWith(marks, a) + "'" + NormalizeKeyWith(marks, b)
  {
    NormalizeKeyConcat(marks, a + [c], b);
    NormalizeKeyConcat(marks, a, [c]);
    NormalizeOne(marks, c);
  }

  /** Normalising twice changes nothing more. */
  lemma {:induction false} NormalizeIdempotent(marks: set<char>, key: string)
    requires MarksOnly(marks)
    ensures NormalizeKeyWith(marks, NormalizeKeyWith(marks, key)) == NormalizeKeyWith(marks, key)
  {
    var k := NormalizeKeyWith(marks, key);
    NormalizedChars(marks, key);
    NormalChars(marks, k);
  }

  lemma {:induction false} NormalChars(marks: set<char>, s: string)
    requires MarksOnly(marks)
    requires forall i :: 0 <= i < |s| ==> IsNormalChar(s[i])
    ensures NormalizeKeyWith(marks, s) == s
    decreases |s|
  {
    NormalizeKeyPerChar(marks, s);
    if s != [] {
      var init := s[..|s| - 1];
      NormalChars(marks, init);
      NormalizeKeyPerChar(marks, init);
      assert init + [s[|s| - 1]] == s;
    }
  }

  /** Lower-casing the key first makes no difference. */
  lemma {:induction false} NormalizeIgnoresCase(marks: set<char>, key: string)
    requires MarksOnly(marks)
    ensures NormalizeKeyWith(marks, Lower(key)) == NormalizeKeyWith(marks, key)
    decreases |key|
  {
    NormalizeKeyPerChar(marks, key);
    NormalizeKeyPerChar(marks, Lower(key));
    if key != [] {
      var init := key[..|key| - 1];
      NormalizeIgnoresCase(marks, init);
      NormalizeKeyPerChar(marks, init);
      NormalizeKeyPerChar(marks, Lower(init));
      assert Lower(key)[..|key| - 1] == Lower(init);
    }
  }

  /** Keys that differ only in the case of ASCII letters normalise alike. */
  lemma SameUpToCase(marks: set<char>, a: string, b: string)
    requires MarksOnly(marks) && Lower(a) == Lower(b)
    ensures NormalizeKeyWith(marks, a) == NormalizeKeyWith(marks, b)
  {
    NormalizeIgnoresCase(marks, a);
    NormalizeIgnoresCase(marks, b);
  }

  lemma {:induction false} RemoveKeyChars(s: string)
    requires forall i :: 0 <= i < |s| ==> IsKeyChar(s[i])
    ensures RemoveOthers(s) == s
    decreases |s|
  {
    if s != [] {
      RemoveKeyChars(s[..|s| - 1]);
    }
  }

  /** A key of letters, digits, spaces and `'` is only lower-cased. */
  lemma PlainKey(marks: set<char>, s: string)
    requires forall i :: 0 <= i < |s| ==> s[i] !in marks && IsKeyChar(s[i])
    ensures NormalizeKeyWith(marks, s) == Lower(s)
  {
    assert ReplaceApostrophes(marks, s) == s;
    RemoveKeyChars(s);
  }

  /** A character outside the apostrophe set that is not a key character
      is dropped. */
  lemma Dropped(marks: set<char>, a: string, c: char, b: string)
    requires c !in marks && !IsKeyChar(c)
    ensures NormalizeKeyWith(marks, a + [c] + b) == NormalizeKeyWith(marks, a) + NormalizeKeyWith(marks, b)
  {
    NormalizeKeyConcat(marks, a + [c], b);
    NormalizeKeyConcat(marks, a, [c]);
    NormalizeOne(marks, c);
  }

  /** A name written with a right single quotation mark loses its
      apostrophe as written ... */
  lemma CurlyApostropheDropped()
    ensures NormalizeKeyAsWritten("O\U{2019}Brien") == "obrien"
  {
    var a, b, q := "O", "Brien", '\U{2019}';
    assert "O\U{2019}Brien" == a + [q] + b;
    PlainKey(ApostrophesAsWritten, a);
    PlainKey(ApostrophesAsWritten, b);
    assert Lower(a) == "o" && Lower(b) == "brien";
    Dropped(ApostrophesAsWritten, a, q, b);
  }

  /** ... and keeps it with the intended set. */
  lemma CurlyApostropheKept()
    ensures NormalizeKey("O\U{2019}Brien") == "o'brien"
  {
    var a, b, q := "O", "Brien", '\U{2019}';
    assert "O\U{2019}Brien" == a + [q] + b;
    PlainKey(Apostrophes, a);
    PlainKey(Apostrophes, b);
    assert Lower(a) == "o" && Lower(b) == "brien";
    ApostropheKept(Apostrophes, a, q, b);
  }

  // compare_dictionaries

  /** A name-to-score dict, as its items in insertion order. */
  type Scores = seq<(string, int)>

  /** `{normalize_key(k): v for k, v in d.items()}` with apostrophe set
      `marks`: the last item wins where two names normalise alike. */
  function NormalizeScores(marks: set<char>, d: Scores): (r: map<string, int>)
    ensures forall i :: 0 <= i < |d| ==> NormalizeKeyWith(marks, d[i].0) in r
    ensures forall k :: k in r ==> exists i :: 0 <= i < |d| && NormalizeKeyWith(marks, d[i].0) == k
    decreases |d|
  {
    if d == [] then map[]
    else
      var init := d[..|d| - 1];
      var last := d[|d| - 1];
      var m := NormalizeScores(marks, init);
      assert forall i :: 0 <= i < |init| ==> init[i] == d[i];
      m[NormalizeKeyWith(marks, last.0) := last.1]
  }

  /** `compare_dictionaries` with apostrophe set `marks`: the dicts match
      once their names are normalised. The script as written uses
      `ApostrophesAsWritten`; `Apostrophes` is the intended set. */
  predicate CompareDictionaries(marks: set<char>, ours: Scores, espn: Scores)
    ensures CompareDictionaries(marks, ours, espn) ==>
              forall i :: 0 <= i < |ours| ==> exists j :: 0 <= j < |espn| && NormalizeKeyWith(marks, espn[j].0) == NormalizeKeyWith(marks, ours[i].0)
    ensures CompareDictionaries(marks, ours, espn) ==>
              forall j :: 0 <= j < |espn| ==> exists i :: 0 <= i < |ours| && NormalizeKeyWith(marks, ours[i].0) == NormalizeKeyWith(marks, espn[j].0)
  {
    NormalizeScores(marks, ours) == NormalizeScores(marks, espn)
  }

  /** A normalised name holds the score of the last name that normalises
      to it. */
  lemma {:induction false} NormalizeScoresEntries(marks: set<char>, d: Scores, k: string)
    ensures forall i :: 0 <= i < |d| && NormalizeKeyWith(marks, d[i].0) == k
                        && (forall j :: i < j < |d| ==> NormalizeKeyWith(marks, d[j].0) != k)
                        ==> k in NormalizeScores(marks, d) && NormalizeScores(marks, d)[k] == d[i].1
    decreases |d|
  {
    if d != [] {
      var init, last := d[..|d| - 1], d[|d| - 1];
      assert NormalizeScores(marks, d) == NormalizeScores(marks, init)[NormalizeKeyWith(marks, last.0) := last.1];
      NormalizeScoresEntries(marks, init, k);
      forall i | 0 <= i < |d| && NormalizeKeyWith(marks, d[i].0) == k && (forall j :: i < j < |d| ==> NormalizeKeyWith(marks, d[j].0) != k)
        ensures k in NormalizeScores(marks, d) && NormalizeScores(marks, d)[k] == d[i].1
      {
        if i < |d| - 1 {
          assert init[i] == d[i];
          assert forall j :: i < j < |init| ==> init[j] == d[j];
        }
      }
    }
  }

  /** The dict with every name lower-cased. */
  function LowerNames(d: Scores): (r: Scores)
    ensures |r| == |d|
  {
    seq(|d|, i requires 0 <= i < |d| => (Lower(d[i].0), d[i].1))
  }

  /** A dict compares equal to a copy whose names differ only in letter
      case, with either apostrophe set. */
  lemma CompareIgnoresCase(marks: set<char>, d: Scores)
    requires MarksOnly(marks)
    ensures CompareDictionaries(marks, d, LowerNames(d))
  {
    NormalizeScoresLower(marks, d);
  }

  lemma {:induction false} NormalizeScoresLower(marks: set<char>, d: Scores)
    requires MarksOnly(marks)
    ensures NormalizeScores(marks, LowerNames(d)) == NormalizeScores(marks, d)
    decreases |d|
  {
    if d != [] {
      var init, last := d[..|d| - 1], d[|d| - 1];
      var e := LowerNames(d);
      assert e[..|d| - 1] == LowerNames(init);
      assert e[|d| - 1] == (Lower(last.0), last.1);
      NormalizeScoresLower(marks, init);
      assert NormalizeKeyWith(marks, Lower(last.0)) == NormalizeKeyWith(marks, last.0) by {
        NormalizeIgnoresCase(marks, last.0);
      }
      assert NormalizeScores(marks, e) == NormalizeScores(marks, e[..|d| - 1])[NormalizeKeyWith(marks, e[|d| - 1].0) := e[|d| - 1].1];
    }
  }

  /** Both sides' keys for a curly-quoted name and its plain-quoted form. */
  lemma CurlyAndPlainKeys(marks: set<char>)
    requires MarksOnly(marks) && '\'' !in marks
    ensures NormalizeKeyWith(marks, "O'Brien") == "o'brien"
    ensures '\U{2019}' !in marks ==> NormalizeKeyWith(marks, "O\U{2019}Brien") == "obrien"
    ensures '\U{2019}' in marks ==> NormalizeKeyWith(marks, "O\U{2019}Brien") == "o'brien"
  {
    var a, b, q := "O", "Brien", '\U{2019}';
    assert "O\U{2019}Brien" == a + [q] + b;
    assert "O'Brien" == a + ['\''] + b;
    PlainKey(marks, a);
    PlainKey(marks, b);
    PlainKey(marks, "O'Brien");
    assert Lower(a) == "o" && Lower(b) == "brien";
    assert Lower("O'Brien") == "o'brien";
    if q in marks {
      ApostropheKept(marks, a, q, b);
    } else {
      Dropped(marks, a, q, b);
    }
  }

  /** As written, our `O’Brien` does not match ESPN's `O'Brien`, while it
      does match a name written without an apostrophe ... */
  lemma CurlyNameMismatchAsWritten()
    ensures !CompareDictionaries(ApostrophesAsWritten, [("O\U{2019}Brien", 1)], [("O'Brien", 1)])
    ensures CompareDictionaries(ApostrophesAsWritten, [("O\U{2019}Brien", 1)], [("OBrien", 1)])
  {
    var marks := ApostrophesAsWritten;
    BothSetsMarksOnly();
    CurlyAndPlainKeys(marks);
    PlainKey(marks, "OBrien");
    assert Lower("OBrien") == "obrien";
    assert NormalizeScores(marks, [("O\U{2019}Brien", 1)]) == map["obrien" := 1];
    assert NormalizeScores(marks, [("O'Brien", 1)]) == map["o'brien" := 1];
    assert "o'brien" !in map["obrien" := 1];
  }

  /** ... and with the intended set the two spellings match. */
  lemma CurlyNameMatches()
    ensures CompareDictionaries(Apostrophes, [("O\U{2019}Brien", 1)], [("O'Brien", 1)])
  {
    BothSetsMarksOnly();
    CurlyAndPlainKeys(Apostrophes);
    assert NormalizeScores(Apostrophes, [("O\U{2019}Brien", 1)]) == map["o'brien" := 1];
    assert NormalizeScores(Apostrophes, [("O'Brien", 1)]) == map["o'brien" := 1];
  }

  // The "W-L" record score

  /** `wins, losses = map(int, score_str.split('-'))` on the stripped cell
      text, then `wins - 2 * losses`; `None` for the `ValueError` of a text
      that is not two integers around one dash. */
  function WinLossScore(text: string): (r: Option<int>)
    ensures r.Some? <==> var parts := Split(Strip(text), "-");
                         |parts| == 2 && ParseInt(parts[0]).Some? && ParseInt(parts[1]).Some?
    ensures r.Some? ==> var parts := Split(Strip(text), "-");
                        && |parts| == 2 && Strip(text) == parts[0] + "-" + parts[1]
                        && ParseInt(parts[0]).Some? && ParseInt(parts[1]).Some?
                        && r.value == ParseInt(parts[0]).value - 2 * ParseInt(parts[1]).value
  {
    var parts := Split(Strip(text), "-");
    if |parts| == 2 then
      assert Join(parts, "-") == parts[0] + "-" + Join(parts[1..], "-");
      assert Join(parts[1..], "-") == parts[1];
      WinLossOfParts(parts)
    else None
  }

  /** `wins - 2 * losses` once the text is cut into two pieces. */
  function WinLossOfParts(parts: seq<string>): Option<int>
    requires |parts| == 2
  {
    match (ParseInt(parts[0]), ParseInt(parts[1]))
    case (Some(wins), Some(losses)) => Some(wins - 2 * losses)
    case _ => None
  }

  /** A record written as `"W-L"` scores `W - 2L`. */
  lemma WinLossRoundTrip(wins: nat, losses: nat)
    ensures WinLossScore(ShowNat(wins) + "-" + ShowNat(losses)) == Some(wins - 2 * losses)
  {
    ShowNatDigits(wins);
    ShowNatDigits(losses);
    WinLossDigits(ShowNat(wins), ShowNat(losses), wins, losses);
  }

  /** Two runs of digits around one dash score the first less twice the
      second. */
  lemma WinLossDigits(w: string, l: string, wins: int, losses: int)
    requires |w| > 0 && AllDigits(w) && |l| > 0 && AllDigits(l)
    requires DigitsValue(w) == wins && DigitsValue(l) == losses
    ensures WinLossScore(w + "-" + l) == Some(wins - 2 * losses)
  {
    var s := w + "-" + l;
    assert WinLossScore(s) == WinLossOfParts([w, l]) by {
      forall k | 0 <= k < |w| ensures w[k] != '-' { assert IsDigit(w[k]); }
      forall k | 0 <= k < |l| ensures l[k] != '-' { assert IsDigit(l[k]); }
      SplitTwo(w, l);
      DigitsUnspaced(w, l);
      WinLossOfText(s, w, l);
    }
    WinLossOfDigits(w, l, wins, losses);
  }

  lemma WinLossOfDigits(w: string, l: string, wins: int, losses: int)
    requires |w| > 0 && AllDigits(w) && |l| > 0 && AllDigits(l)
    requires DigitsValue(w) == wins && DigitsValue(l) == losses
    ensures WinLossOfParts([w, l]) == Some(wins - 2 * losses)
  {
    ParseDigits(w);
    ParseDigits(l);
    WinLossOfTwo(w, l, wins, losses);
  }

  lemma WinLossOfText(s: string, w: string, l: string)
    requires Strip(s) == s && Split(s, "-") == [w, l]
    ensures WinLossScore(s) == WinLossOfParts([w, l])
  {
  }

  lemma WinLossOfTwo(w: string, l: string, wins: int, losses: int)
    requires ParseInt(w) == Some(wins) && ParseInt(l) == Some(losses)
    ensures WinLossOfParts([w, l]) == Some(wins - 2 * losses)
  {
  }

  /** A written record has no surrounding whitespace to strip. */
  lemma RecordUnspaced(wins: nat, losses: nat)
    ensures Strip(ShowNat(wins) + "-" + ShowNat(losses)) == ShowNat(wins) + "-" + ShowNat(losses)
  {
    ShowNatDigits(wins);
    ShowNatDigits(losses);
    DigitsUnspaced(ShowNat(wins), ShowNat(losses));
  }

  lemma DigitsUnspaced(w: string, l: string)
    requires |w| > 0 && AllDigits(w) && |l| > 0 && AllDigits(l)
    ensures Strip(w + "-" + l) == w + "-" + l
  {
    var s := w + "-" + l;
    assert IsDigit(w[0]) && IsDigit(l[|l| - 1]);
    assert s[0] == w[0] && s[|s| - 1] == l[|l| - 1];
    StripUnspaced(s);
  }

  lemma SplitTwo(a: string, b: string)
    requires forall k :: 0 <= k < |a| ==> a[k] != '-'
    requires forall k :: 0 <= k < |b| ==> b[k] != '-'
    ensures Split(a + "-" + b, "-") == [a, b]
  {
    SplitCharHead(a, "-", b);
    SplitAbsent(b, "-");
  }

  /** A text without a dash is a `ValueError`. */
  lemma WinLossNeedsOneDash(text: string)
    requires forall i :: 0 <= i < |Strip(text)| ==> Strip(text)[i] != '-'
    ensures WinLossScore(text) == None
  {
    SplitAbsent(Strip(text), "-");
  }
}
