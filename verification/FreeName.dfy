/** The names of uploaded models: cleaning, numbering, and the first number that makes a name free. */
module FreeName {
  import opened Options
  import Arithmetic
  import opened CustomCode
  import opened Text

  const NAME_MAX: int := 60
  const MODELS_MAX: int := 100
  const KERAS_SUFFIX: string := ".keras"
  const DEFAULT_STEM: string := "model"

  // ---------- numbers ----------

  function Digit(d: int): char
    requires 0 <= d < 10
  {
    "0123456789"[d]
  }

  /** `str(n)`. */
  function Digits(n: nat): (r: string)
    ensures r != "" && forall c | c in r :: c in "0123456789"
  {
    if n < 10 then [Digit(n)] else Digits(n / 10) + [Digit(n % 10)]
  }

  /** What a decimal numeral says. */
  function Read(numeral: string): int {
    if numeral == "" then 0
    else 10 * Read(numeral[..|numeral| - 1]) + (numeral[|numeral| - 1] as int - '0' as int)
  }

  lemma {:induction false} DigitIs(d: int)
    requires 0 <= d < 10
    ensures Digit(d) as int - '0' as int == d
  {
  }

  /** `Digits` writes the number in decimal, without a zero in front. */
  lemma {:induction false} DigitsRead(n: nat)
    ensures Read(Digits(n)) == n
    ensures n > 0 ==> Digits(n)[0] != '0'
  {
    DigitIs(n % 10);
    if n < 10 {
      assert Digits(n)[..0] == "";
    } else {
      DigitsRead(n / 10);
      assert Digits(n)[..|Digits(n)| - 1] == Digits(n / 10);
    }
  }

  lemma {:induction false} DigitInjective(a: int, b: int)
    requires 0 <= a < 10 && 0 <= b < 10 && Digit(a) == Digit(b)
    ensures a == b
  {
  }

  lemma {:induction false} DigitsInjective(a: nat, b: nat)
    requires Digits(a) == Digits(b)
    ensures a == b
  {
    var s := Digits(a);
    assert a < 10 <==> |Digits(a)| == 1;
    assert b < 10 <==> |Digits(b)| == 1;
    if a < 10 {
      DigitInjective(a, b);
    } else {
      assert Digits(a)[..|s| - 1] == Digits(a / 10) && Digits(b)[..|s| - 1] == Digits(b / 10);
      assert Digits(a)[|s| - 1] == Digit(a % 10) && Digits(b)[|s| - 1] == Digit(b % 10);
      DigitsInjective(a / 10, b / 10);
      DigitInjective(a % 10, b % 10);
    }
  }

  lemma {:induction false} DigitsLength(a: nat, b: nat)
    requires a <= b
    ensures |Digits(a)| <= |Digits(b)|
  {
    if b >= 10 && a >= 10 { DigitsLength(a / 10, b / 10); }
  }

  // ---------- names ----------

  /** Python's `s[:n]`: a negative `n` counts from the end. */
  function Take(s: string, n: int): string {
    if n >= |s| then s else if n >= 0 then s[..n] else if |s| + n > 0 then s[..|s| + n] else ""
  }

  /** The name without its last six characters; `Suffix` is those. */
  function Stem(name: string): string {
    Take(name, -|KERAS_SUFFIX|)
  }

  function Suffix(name: string): string {
    if |name| <= |KERAS_SUFFIX| then name else name[|name| - |KERAS_SUFFIX|..]
  }

  function Label(number: nat): string {
    " (" + Digits(number) + ")"
  }

  /** Candidate `number`: cut, stripped and labelled, except that candidate 1 is the name as it is. */
  function Numbered(name: string, number: nat, space: set<char>): string {
    if number == 1 then name
    else StripRight(Take(Stem(name), NAME_MAX - |Label(number)|), space) + Label(number) + Suffix(name)
  }

  /** The name is its two parts; the extension is the last six characters, or all of fewer. */
  lemma {:induction false} SplitIs(name: string)
    ensures name == Stem(name) + Suffix(name)
    ensures |Suffix(name)| == if |name| < 6 then |name| else 6
  {
  }

  /**
   What a numbered name is: as much of the stem as leaves room in 60 characters, without white space at its
   end, then the number in parentheses after a space, then the extension.
   */
  lemma {:induction false} NumberedIs(name: string, number: nat, space: set<char>)
    requires number != 1 && |Digits(number)| <= 57
    ensures var stem := Stem(name); var room := 57 - |Digits(number)|;
            Numbered(name, number, space) ==
            StripRight(if |stem| <= room then stem else stem[..room], space) + " (" + Digits(number) + ")" + Suffix(name)
    ensures Numbered(name, 1, space) == name
  {
    hide StripRight, Digits, Stem, Suffix;
    assert Take(Stem(name), 57 - |Digits(number)|) == Take(Stem(name), NAME_MAX - |Label(number)|);
  }

  lemma {:induction false} SecondModel()
    ensures Numbered("lstm.keras", 2, {' '}) == "lstm (2).keras"
  {
    NumberedIs("lstm.keras", 2, {' '});
    assert Stem("lstm.keras") == "lstm" && Suffix("lstm.keras") == ".keras" && Digits(2) == "2";
  }

  /** The part of a string from its last opening parenthesis on. */
  function FromLastParen(s: string): string {
    if s == "" || s[|s| - 1] == '(' then ""
    else FromLastParen(s[..|s| - 1]) + [s[|s| - 1]]
  }

  lemma {:induction false} FromLastParenOf(before: string, after: string)
    requires '(' !in after
    ensures FromLastParen(before + "(" + after) == after
  {
    var s := before + "(" + after;
    if after == "" {
      assert s[|s| - 1] == '(';
    } else {
      var n := |after| - 1;
      assert s[..|s| - 1] == before + "(" + after[..n] && s[|s| - 1] == after[n];
      FromLastParenOf(before, after[..n]);
      assert after == after[..n] + [after[n]];
    }
  }

  /** What is left of a numbered name after its last parenthesis opens, the extension apart. */
  lemma {:induction false} TailOfNumbered(name: string, number: nat, space: set<char>)
    requires 2 <= number
    ensures |Suffix(name)| <= |Numbered(name, number, space)|
    ensures var a := Numbered(name, number, space); FromLastParen(a[..|a| - |Suffix(name)|]) == Digits(number) + ")"
  {
    hide StripRight, Take, FromLastParen, Digits, Suffix, Stem;
    var suffix, a := Suffix(name), Numbered(name, number, space);
    var x := StripRight(Take(Stem(name), NAME_MAX - |Label(number)|), space);
    assert a == (x + " " + "(" + (Digits(number) + ")")) + suffix;
    assert a[..|a| - |suffix|] == (x + " ") + "(" + (Digits(number) + ")");
    FromLastParenOf(x + " ", Digits(number) + ")");
  }

  lemma {:induction false} SameBeforeLast(a: string, b: string)
    requires a + ")" == b + ")"
    ensures a == b
  {
    assert (a + ")")[..|a|] == a && (b + ")")[..|b|] == b;
  }

  /** Numbered names are pairwise distinct. */
  lemma {:induction false} NumbersAreDistinct(name: string, m: nat, n: nat, space: set<char>)
    requires 2 <= m && 2 <= n && Numbered(name, m, space) == Numbered(name, n, space)
    ensures m == n
  {
    hide *;
    TailOfNumbered(name, m, space);
    TailOfNumbered(name, n, space);
    SameBeforeLast(Digits(m), Digits(n));
    DigitsInjective(m, n);
  }

  /** The names numbered from 2 to `last`. */
  ghost function NamesUpTo(name: string, last: nat, space: set<char>): set<string> {
    set n: nat | 2 <= n <= last :: Numbered(name, n, space)
  }

  lemma {:induction false} NamesCount(name: string, last: nat, space: set<char>)
    requires 1 <= last
    ensures |NamesUpTo(name, last, space)| == last - 1
  {
    if last == 1 {
      assert NamesUpTo(name, 1, space) == {};
    } else {
      NamesCount(name, last - 1, space);
      var before := NamesUpTo(name, last - 1, space);
      assert NamesUpTo(name, last, space) == before + {Numbered(name, last, space)};
      if Numbered(name, last, space) in before {
        var n: nat :| 2 <= n <= last - 1 && Numbered(name, n, space) == Numbered(name, last, space);
        NumbersAreDistinct(name, n, last, space);
      }
    }
  }

  /** `number` is the first that makes `lowered` free. */
  predicate FirstFree(lowered: string, taken: set<string>, number: nat, space: set<char>) {
    && 1 <= number
    && Numbered(lowered, number, space) !in taken
    && (forall m: nat | 1 <= m < number :: Numbered(lowered, m, space) in taken)
  }

  /** All numbers from 2 to `last` taken: there are at least as many taken names. */
  lemma {:induction false} TakenAreMany(lowered: string, taken: set<string>, last: nat, space: set<char>)
    requires 1 <= last && forall m: nat | 2 <= m <= last :: Numbered(lowered, m, space) in taken
    ensures last - 1 <= |taken|
  {
    NamesCount(lowered, last, space);
    Arithmetic.SubsetSize(NamesUpTo(lowered, last, space), taken);
  }

  /** Counts up to the first free number; with at most 99 names taken that is at most 101. */
  method FindFreeName(name: string, lowered: string, taken: set<string>, space: set<char>) returns (r: string)
    ensures exists number: nat ::
              FirstFree(lowered, taken, number, space) && number <= |taken| + 2 && r == Numbered(name, number, space)
  {
    var n := 1;
    while Numbered(lowered, n, space) in taken
      invariant 1 <= n <= |taken| + 2
      invariant forall m: nat | 1 <= m < n :: Numbered(lowered, m, space) in taken
      decreases |taken| + 2 - n
    {
      if n >= 2 { TakenAreMany(lowered, taken, n, space); }
      n := n + 1;
    }
    assert FirstFree(lowered, taken, n, space);
    return Numbered(name, n, space);
  }

  // ---------- lowercasing ----------

  function Lowered(s: string, lower: char -> char): (r: string)
    ensures |r| == |s| && forall i | 0 <= i < |s| :: r[i] == lower(s[i])
  {
    seq(|s|, i requires 0 <= i < |s| => lower(s[i]))
  }

  /** Lowercasing letter by letter: white space stays white space, and a label's characters stay as they are. */
  ghost predicate LetterByLetter(lower: char -> char, space: set<char>) {
    && (forall c :: c in space <==> lower(c) in space)
    && (forall c | c in "0123456789 ()" :: lower(c) == c)
  }

  lemma {:induction false} LoweredStrip(s: string, lower: char -> char, space: set<char>)
    requires LetterByLetter(lower, space)
    ensures Lowered(StripRight(s, space), lower) == StripRight(Lowered(s, lower), space)
  {
    if s != "" && s[|s| - 1] in space {
      LoweredStrip(s[..|s| - 1], lower, space);
      assert Lowered(s, lower)[..|s| - 1] == Lowered(s[..|s| - 1], lower);
    }
  }

  lemma {:induction false} LoweredTake(s: string, n: int, lower: char -> char)
    ensures Lowered(Take(s, n), lower) == Take(Lowered(s, lower), n)
    ensures Lowered(Suffix(s), lower) == Suffix(Lowered(s, lower))
  {
  }

  lemma {:induction false} LoweredLabel(number: nat, lower: char -> char, space: set<char>)
    requires LetterByLetter(lower, space)
    ensures Lowered(Label(number), lower) == Label(number)
  {
    var l := Label(number);
    forall i | 0 <= i < |l| ensures lower(l[i]) == l[i] {
      if 2 <= i < |l| - 1 {
        assert l[i] == Digits(number)[i - 2] && Digits(number)[i - 2] in Digits(number);
      }
      assert l[i] in "0123456789 ()" by { InLabel(l[i]); }
    }
  }

  lemma {:induction false} InLabel(c: char)
    ensures c in "0123456789" || c in " ()" <==> c in "0123456789 ()"
  {
    assert "0123456789 ()" == "0123456789" + " ()";
  }

  /** `Numbered` and `Lowered` commute. */
  lemma {:induction false} NumberingCommutesWithLowering(name: string, number: nat, lower: char -> char, space: set<char>)
    requires LetterByLetter(lower, space)
    ensures Lowered(Numbered(name, number, space), lower) == Numbered(Lowered(name, lower), number, space)
  {
    hide StripRight, Take, Suffix, Label, Lowered, LetterByLetter;
    if number != 1 {
      var n := NAME_MAX - |Label(number)|;
      LoweredTake(name, -|KERAS_SUFFIX|, lower);
      LoweredTake(Stem(name), n, lower);
      LoweredStrip(Take(Stem(name), n), lower, space);
      LoweredLabel(number, lower, space);
      LoweredParts(StripRight(Take(Stem(name), n), space), Label(number), Suffix(name), lower);
    }
  }

  lemma {:induction false} LoweredParts(a: string, b: string, c: string, lower: char -> char)
    ensures Lowered(a + b + c, lower) == Lowered(a, lower) + Lowered(b, lower) + Lowered(c, lower)
  {
  }

  // ---------- the lookup by prefix ----------

  function Replace(s: string, c: char, into: string): string {
    if s == "" then "" else (if s[0] == c then into else [s[0]]) + Replace(s[1..], c, into)
  }

  /** Escapes a prefix for LIKE: the backslash first, then the two wildcards. */
  function Escaped(prefix: string): string {
    Replace(Replace(Replace(prefix, '\\', "\\\\"), '%', "\\%"), '_', "\\_")
  }

  /** SQL's LIKE with the backslash as its escape. */
  predicate Like(pattern: string, s: string)
    decreases |pattern|
  {
    if pattern == "" then s == ""
    else if pattern[0] == '\\' && |pattern| > 1 then s != "" && s[0] == pattern[1] && Like(pattern[2..], s[1..])
    else if pattern[0] == '%' then exists k :: 0 <= k <= |s| && Like(pattern[1..], s[k..])
    else s != "" && (pattern[0] == '_' || s[0] == pattern[0]) && Like(pattern[1..], s[1..])
  }

  function EscapedChar(c: char): string {
    if c == '\\' || c == '%' || c == '_' then ['\\', c] else [c]
  }

  lemma {:induction false} ReplaceAppend(a: string, b: string, c: char, into: string)
    ensures Replace(a + b, c, into) == Replace(a, c, into) + Replace(b, c, into)
  {
    if a == "" {
      assert a + b == b;
    } else {
      assert (a + b)[1..] == a[1..] + b;
      ReplaceAppend(a[1..], b, c, into);
    }
  }

  lemma {:induction false} EscapedAppend(a: string, b: string)
    ensures Escaped(a + b) == Escaped(a) + Escaped(b)
  {
    hide Replace;
    var a1, b1 := Replace(a, '\\', "\\\\"), Replace(b, '\\', "\\\\");
    ReplaceAppend(a, b, '\\', "\\\\");
    ReplaceAppend(a1, b1, '%', "\\%");
    ReplaceAppend(Replace(a1, '%', "\\%"), Replace(b1, '%', "\\%"), '_', "\\_");
  }

  lemma {:induction false} ReplaceOne(x: char, c: char, into: string)
    ensures Replace([x], c, into) == if x == c then into else [x]
  {
    assert [x][1..] == "";
  }

  lemma {:induction false} ReplaceTwo(x: char, y: char, c: char, into: string)
    requires x != c && y != c
    ensures Replace([x, y], c, into) == [x, y]
  {
    ReplaceOne(y, c, into);
    assert [x, y][1..] == [y];
  }

  /** The three replacements escape one character once. */
  lemma {:induction false} EscapedOne(c: char)
    ensures Escaped([c]) == EscapedChar(c)
  {
    hide Replace;
    ReplaceOne(c, '\\', "\\\\");
    if c == '\\' {
      ReplaceTwo('\\', '\\', '%', "\\%");
      ReplaceTwo('\\', '\\', '_', "\\_");
    } else {
      ReplaceOne(c, '%', "\\%");
      if c == '%' { ReplaceTwo('\\', '%', '_', "\\_"); } else { ReplaceOne(c, '_', "\\_"); }
    }
  }

  /** And so every character of a prefix. */
  lemma {:induction false} EscapedFirst(prefix: string)
    requires prefix != ""
    ensures Escaped(prefix) == EscapedChar(prefix[0]) + Escaped(prefix[1..])
  {
    hide Escaped, EscapedChar;
    assert prefix == [prefix[0]] + prefix[1..];
    EscapedAppend([prefix[0]], prefix[1..]);
    EscapedOne(prefix[0]);
  }

  lemma {:induction false} LikeAnything(s: string)
    ensures Like("%", s)
  {
    assert "%"[1..] == "";
    assert Like("%"[1..], s[|s|..]);
  }

  /** The escaped pattern matches exactly the names that start with the prefix. */
  lemma {:induction false} EscapedMatchesPrefix(prefix: string, s: string)
    ensures Like(Escaped(prefix) + "%", s) <==> prefix <= s
    decreases |prefix|
  {
    if prefix == "" {
      LikeAnything(s);
      assert Escaped("") + "%" == "%";
    } else {
      EscapedFirst(prefix);
      var e, rest := EscapedChar(prefix[0]), Escaped(prefix[1..]) + "%";
      var pattern := Escaped(prefix) + "%";
      assert pattern == e + rest && pattern[|e|..] == rest;
      if s != "" {
        EscapedMatchesPrefix(prefix[1..], s[1..]);
        assert prefix <= s <==> prefix[0] == s[0] && prefix[1..] <= s[1..];
      }
    }
  }

  const LABEL_MAX: int := 6

  lemma {:induction false} LabelFits(number: nat)
    requires number <= MODELS_MAX + 1
    ensures |Label(number)| <= LABEL_MAX
  {
    DigitsLength(number, 101);
    assert Digits(101) == Digits(10) + [Digit(1)] && Digits(10) == Digits(1) + [Digit(0)] && Digits(1) == [Digit(1)];
  }

  /** The prefix the taken names are looked up by. */
  function LookupPrefix(name: string, space: set<char>): string {
    StripRight(Take(Stem(name), NAME_MAX - LABEL_MAX), space)
  }

  /** Every candidate up to 101 starts with the prefix. */
  lemma {:induction false} CandidatesStartWithPrefix(name: string, number: nat, space: set<char>)
    requires 1 <= number <= MODELS_MAX + 1
    ensures LookupPrefix(name, space) <= Numbered(name, number, space)
  {
    var a := Take(Stem(name), NAME_MAX - LABEL_MAX);
    if number == 1 {
      StripRightIsPrefix(a, a, space);
      assert a <= name;
    } else {
      LabelFits(number);
      var b := Take(Stem(name), NAME_MAX - |Label(number)|);
      assert a <= b;
      StripRightIsPrefix(a, b, space);
    }
  }

  /** The names of the user that the lookup returns, all lowercased. */
  function LookedUp(models: set<string>, prefix: string, lower: char -> char): set<string> {
    set t | t in models && Like(Lowered(Escaped(prefix) + "%", lower), t)
  }

  /** Lowercasing leaves the pattern's own characters alone. */
  ghost predicate KeepsWildcards(lower: char -> char) {
    && lower('\\') == '\\' && lower('%') == '%' && lower('_') == '_'
    && (forall c :: lower(c) in {'\\', '%', '_'} ==> lower(c) == c)
  }

  lemma {:induction false} LoweredEscaped(prefix: string, lower: char -> char)
    requires KeepsWildcards(lower)
    ensures Lowered(Escaped(prefix), lower) == Escaped(Lowered(prefix, lower))
  {
    if prefix == "" {
      assert Lowered("", lower) == "";
    } else {
      LoweredEscaped(prefix[1..], lower);
      EscapedFirst(prefix);
      EscapedFirst(Lowered(prefix, lower));
      assert Lowered(prefix, lower)[1..] == Lowered(prefix[1..], lower);
      LoweredParts(EscapedChar(prefix[0]), Escaped(prefix[1..]), "", lower);
      assert Lowered(EscapedChar(prefix[0]), lower) == EscapedChar(lower(prefix[0]));
      assert EscapedChar(prefix[0]) + Escaped(prefix[1..]) + "" == Escaped(prefix);
      assert Lowered("", lower) == "";
    }
  }

  /** The lookup returns exactly the user's names that start with the lowercased prefix. */
  lemma {:induction false} LookupIsByPrefix(models: set<string>, prefix: string, lower: char -> char)
    requires KeepsWildcards(lower)
    ensures LookedUp(models, prefix, lower) == set t | t in models && Lowered(prefix, lower) <= t
  {
    LoweredEscaped(prefix, lower);
    LoweredParts(Escaped(prefix), "%", "", lower);
    assert Lowered("%", lower) == "%" && Lowered("", lower) == "";
    assert Lowered(Escaped(prefix) + "%", lower) == Escaped(Lowered(prefix, lower)) + "%" by {
      assert Escaped(prefix) + "%" + "" == Escaped(prefix) + "%";
    }
    forall t | t in models ensures Like(Lowered(Escaped(prefix) + "%", lower), t) <==> Lowered(prefix, lower) <= t {
      EscapedMatchesPrefix(Lowered(prefix, lower), t);
    }
  }

  /**
   Looking only at the names with the prefix is as good as looking at all: with at most 99 models, the
   first number free among those looked up is the first free among all, at most 101, and no model of
   the user has the chosen name in any case.
   */
  lemma {:induction false} LookupSeesEveryCandidate(name: string, models: set<string>, number: nat, lower: char -> char, space: set<char>)
    requires LetterByLetter(lower, space) && KeepsWildcards(lower) && |models| < MODELS_MAX
    requires var taken := LookedUp(models, LookupPrefix(name, space), lower);
             FirstFree(Lowered(name, lower), taken, number, space) && number <= |taken| + 2
    ensures number <= MODELS_MAX + 1
    ensures FirstFree(Lowered(name, lower), models, number, space)
    ensures Lowered(Numbered(name, number, space), lower) !in models
  {
    var prefix, lowered := LookupPrefix(name, space), Lowered(name, lower);
    var taken := LookedUp(models, prefix, lower);
    Arithmetic.SubsetSize(taken, models);
    LookupIsByPrefix(models, prefix, lower);
    forall m: nat | 1 <= m <= MODELS_MAX + 1 ensures Numbered(lowered, m, space) in taken <==> Numbered(lowered, m, space) in models {
      CandidatesStartWithPrefix(lowered, m, space);
      PrefixLowered(name, lower, space);
    }
    NumberingCommutesWithLowering(name, number, lower, space);
  }

  lemma {:induction false} PrefixLowered(name: string, lower: char -> char, space: set<char>)
    requires LetterByLetter(lower, space)
    ensures Lowered(LookupPrefix(name, space), lower) == LookupPrefix(Lowered(name, lower), space)
  {
    LoweredTake(name, -|KERAS_SUFFIX|, lower);
    LoweredTake(Stem(name), NAME_MAX - LABEL_MAX, lower);
    LoweredStrip(Take(Stem(name), NAME_MAX - LABEL_MAX), lower, space);
  }

  /** No candidate's stem is longer than `NAME_MAX`. */
  lemma {:induction false} NumberedStemFits(name: string, number: nat, space: set<char>)
    requires 1 <= number <= MODELS_MAX + 1 && (number == 1 ==> |Stem(name)| <= NAME_MAX)
    ensures |Numbered(name, number, space)| - |Suffix(name)| <= NAME_MAX
  {
    if number != 1 {
      LabelFits(number);
      var cut := Take(Stem(name), NAME_MAX - |Label(number)|);
      StripRightIsPrefix(cut, cut, space);
    }
  }

  // ---------- uploading ----------

  function AfterLastSlash(s: string): string {
    if s == "" || s[|s| - 1] == '/' || s[|s| - 1] == '\\' then ""
    else AfterLastSlash(s[..|s| - 1]) + [s[|s| - 1]]
  }

  function CleanStem(base: string, rules: Rules): string {
    var stripped := Strip(Visible(Stem(base), rules.invisible), rules.space);
    var stem := StripRight(Take(stripped, NAME_MAX), rules.space);
    if stem == "" then DEFAULT_STEM else stem
  }

  /** The name an upload is kept under; `None` for a file that is no Keras file. `lowers` is Python's lowercasing. */
  function UploadName(fileName: string, lowers: string -> string, rules: Rules): Option<string> {
    var base := AfterLastSlash(fileName);
    if !EndsWith(lowers(base), KERAS_SUFFIX) then None else Some(CleanStem(base, rules) + Suffix(base))
  }

  /** The base name is what follows the last separator of either kind. */
  lemma {:induction false} BaseName(s: string) returns (folder: string)
    ensures s == folder + AfterLastSlash(s) && '/' !in AfterLastSlash(s) && '\\' !in AfterLastSlash(s)
    ensures folder == "" || folder[|folder| - 1] == '/' || folder[|folder| - 1] == '\\'
  {
    if s == "" || s[|s| - 1] == '/' || s[|s| - 1] == '\\' {
      folder := s;
      assert s == s + "";
    } else {
      folder := BaseName(s[..|s| - 1]);
      assert s == s[..|s| - 1] + [s[|s| - 1]];
    }
  }

  /**
   An upload's name splits into a part before the extension that Rename would save, whatever path the
   client sent, and the extension of the file sent. No text lowercases to the extension from fewer letters.
   */
  lemma {:induction false} UploadNameIsSaveable(fileName: string, lowers: string -> string, rules: Rules)
    requires forall c | c in DEFAULT_STEM :: c !in rules.invisible && c !in rules.space
    requires var base := AfterLastSlash(fileName); EndsWith(lowers(base), KERAS_SUFFIX) ==> |KERAS_SUFFIX| <= |base|
    ensures UploadName(fileName, lowers, rules).None? <==> !EndsWith(lowers(AfterLastSlash(fileName)), ".keras")
    ensures UploadName(fileName, lowers, rules).Some? ==>
              var name := UploadName(fileName, lowers, rules).value; var stem := Stem(name);
              && name == stem + Suffix(name) && Suffix(name) == Suffix(AfterLastSlash(fileName))
              && stem == CleanStem(AfterLastSlash(fileName), rules) && 1 <= |stem| <= 60
              && (forall c | c in stem :: c !in rules.invisible && c != '/' && c != '\\')
              && stem[0] !in rules.space && stem[|stem| - 1] !in rules.space
  {
    hide CleanStem, AfterLastSlash, EndsWith;
    var base := AfterLastSlash(fileName);
    CleanStemIsSaveable(base, rules);
    var folder := BaseName(fileName);
    var stem, suffix := CleanStem(base, rules), Suffix(base);
    if EndsWith(lowers(base), KERAS_SUFFIX) { SplitAgain(stem, suffix); }
  }

  lemma {:induction false} SplitAgain(stem: string, suffix: string)
    requires |suffix| == |KERAS_SUFFIX|
    ensures Stem(stem + suffix) == stem && Suffix(stem + suffix) == suffix
  {
  }

  /** The cleaned stem: the default when nothing visible is left, otherwise the first 60 characters without white space at their end. */
  lemma {:induction false} CleanStemIs(base: string, rules: Rules)
    ensures var text, stem := Strip(Visible(Stem(base), rules.invisible), rules.space), CleanStem(base, rules);
            if text == "" then stem == "model"
            else stem == StripRight(if |text| <= 60 then text else text[..60], rules.space) && stem != ""
  {
    hide Visible, StripLeft, StripRight, Stem;
    var text := Strip(Visible(Stem(base), rules.invisible), rules.space);
    var before, after := StripTakes(Visible(Stem(base), rules.invisible), rules.space);
    StripRightNothing(Take(text, NAME_MAX), rules.space);
    var rest := StripRightTakes("", rules.space);
  }

  lemma {:induction false} CleanStemIsSaveable(base: string, rules: Rules)
    requires forall c | c in DEFAULT_STEM :: c !in rules.invisible && c !in rules.space
    ensures var stem := CleanStem(base, rules);
            && 1 <= |stem| <= 60
            && (forall c | c in stem :: c !in rules.invisible && (c in base || c in DEFAULT_STEM))
            && stem[0] !in rules.space && stem[|stem| - 1] !in rules.space
  {
    hide Visible, StripLeft, StripRight, CleanStem, Strip, Stem;
    var visible := Visible(Stem(base), rules.invisible);
    var text, stem := Strip(visible, rules.space), CleanStem(base, rules);
    CleanStemIs(base, rules);
    if text == "" {
      DefaultIsSaveable(rules);
    } else {
      SplitIs(base);
      VisibleHolds(Stem(base), rules.invisible);
      var before, after := StripTakes(visible, rules.space);
      var cut := if |text| <= 60 then text else text[..60];
      var rest := StripRightTakes(cut, rules.space);
      InParts(before, text, after);
      InParts("", Stem(base), Suffix(base));
      PrefixOf(stem, rest, text);
    }
  }

  lemma {:induction false} DefaultIsSaveable(rules: Rules)
    requires forall c | c in DEFAULT_STEM :: c !in rules.invisible && c !in rules.space
    ensures forall c | c in "model" :: c in DEFAULT_STEM && c !in rules.invisible && c !in rules.space
    ensures "model"[0] !in rules.space && "model"[4] !in rules.space
  {
    assert "model"[0] in DEFAULT_STEM && "model"[4] in DEFAULT_STEM;
  }

  lemma {:induction false} InParts(a: string, b: string, c: string)
    ensures forall x | x in b :: x in a + b + c
  {
  }

  /** What is left of the start of a text is in it, and starts as it does. */
  lemma {:induction false} PrefixOf(p: string, rest: string, text: string)
    requires p != "" && p + rest <= text
    ensures p[0] == text[0] && forall c | c in p :: c in text
  {
    forall c | c in p ensures c in text {
      var i :| 0 <= i < |p| && p[i] == c;
      assert (p + rest)[i] == c && text[i] == (p + rest)[i];
    }
    assert (p + rest)[0] == text[0];
  }

  datatype Kept = Named(name: string) | TooManyModels | StorageFull

  const QUOTA_BYTES: int := 100 * 1024 * 1024

  /** The name a checked upload is kept under, next to the user's `models`, their names lowercased. */
  method Keep(name: string, models: set<string>, used: int, size: int, lower: char -> char, space: set<char>) returns (r: Kept)
    requires LetterByLetter(lower, space) && KeepsWildcards(lower)
    ensures r.TooManyModels? <==> |models| >= 100
    ensures r.StorageFull? <==> |models| < 100 && used + size > 100 * 1024 * 1024
    ensures r.Named? ==>
              && Lowered(r.name, lower) !in models
              && exists number: nat :: number <= 101 && r.name == Numbered(name, number, space)
                   && FirstFree(Lowered(name, lower), models, number, space)
  {
    if |models| >= MODELS_MAX {
      return TooManyModels;
    }
    if used + size > QUOTA_BYTES {
      return StorageFull;
    }
    var taken := LookedUp(models, LookupPrefix(name, space), lower);
    var kept := FindFreeName(name, Lowered(name, lower), taken, space);
    ghost var number: nat :|
      FirstFree(Lowered(name, lower), taken, number, space) && number <= |taken| + 2 && kept == Numbered(name, number, space);
    LookupSeesEveryCandidate(name, models, number, lower, space);
    return Named(kept);
  }
}
