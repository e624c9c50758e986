/** Readable temporary passwords: picks from safe alphabets, then a shuffle in place. The random bytes are
    an argument. */
module Password {
  import opened Basics
  import opened Results

  const PASSWORD_MIN_LENGTH := 8
  const TEMPORARY_PASSWORD_LENGTH := 12

  const SAFE_LOWER: string := "abcdefghjkmnpqrstuvwxyz"
  const SAFE_UPPER: string := "ABCDEFGHJKMNPQRSTUVWXYZ"
  const SAFE_DIGITS: string := "23456789"
  const SAFE_SYMBOLS: string := "!@#$%&*?"
  const SAFE_ALL: string := SAFE_LOWER + SAFE_UPPER + SAFE_DIGITS + SAFE_SYMBOLS

  datatype PasswordError = TooShort

  predicate IsLower(c: char) { 'a' <= c <= 'z' }
  predicate IsUpper(c: char) { 'A' <= c <= 'Z' }
  predicate IsSymbol(c: char) { c in "!@#$%&*?" }
  predicate IsAmbiguous(c: char) { c in "0OIl1" }
  predicate IsLetter(c: char) { IsLower(c) || IsUpper(c) }

  /** The characters that a dot does not match. */
  predicate EndsLine(c: char) { c in ['\n', '\r', '\U{2028}', '\U{2029}'] }

  /** Safe characters come from the four classes and none of them is easily confused with another. */
  predicate IsSafe(c: char) { (IsLower(c) || IsUpper(c) || IsDigit(c) || IsSymbol(c)) && !IsAmbiguous(c) }

  /** The strength expression: eight characters of one line, a letter and a digit among them. */
  predicate IsStrong(password: string) {
    && |password| >= PASSWORD_MIN_LENGTH
    && (exists i :: 0 <= i < |password| && IsLetter(password[i]))
    && (exists i :: 0 <= i < |password| && IsDigit(password[i]))
    && (forall i :: 0 <= i < |password| ==> !EndsLine(password[i]))
  }

  predicate IsValidTemporaryShape(password: string) {
    && |password| == TEMPORARY_PASSWORD_LENGTH
    && (exists i :: 0 <= i < |password| && IsLower(password[i]))
    && (exists i :: 0 <= i < |password| && IsUpper(password[i]))
    && (exists i :: 0 <= i < |password| && IsDigit(password[i]))
    && (exists i :: 0 <= i < |password| && IsSymbol(password[i]))
    && (forall i :: 0 <= i < |password| ==> !IsAmbiguous(password[i]))
  }

  /** A look-ahead for one of these characters: it passes over characters of the line and stops at the first hit. */
  predicate LooksAhead(text: string, wanted: char -> bool) {
    text != "" && (wanted(text[0]) || (!EndsLine(text[0]) && LooksAhead(text[1..], wanted)))
  }

  /** The whole text is one line. */
  predicate IsOneLine(text: string) { text == "" || (!EndsLine(text[0]) && IsOneLine(text[1..])) }

  lemma {:induction false} OneLineIff(text: string)
    ensures IsOneLine(text) <==> forall i :: 0 <= i < |text| ==> !EndsLine(text[i])
  {
    hide EndsLine;
    if text != "" {
      OneLineIff(text[1..]);
      assert forall i :: 0 < i < |text| ==> text[i] == text[1..][i - 1];
    }
  }

  lemma {:induction false} LooksAheadIff(text: string, wanted: char -> bool)
    requires IsOneLine(text)
    ensures LooksAhead(text, wanted) <==> exists i :: 0 <= i < |text| && wanted(text[i])
  {
    hide EndsLine;
    if text != "" {
      LooksAheadIff(text[1..], wanted);
      assert forall i :: 0 < i < |text| ==> text[i] == text[1..][i - 1];
    }
  }

  /** A password is strong if and only if the expression matches it from left to right: both look-aheads from
      its start, then at least eight characters of one line up to its end. */
  lemma StrongIffMatched(password: string)
    ensures IsStrong(password) <==>
      && LooksAhead(password, c => 'A' <= c <= 'Z' || 'a' <= c <= 'z')
      && LooksAhead(password, c => '0' <= c <= '9')
      && |password| >= 8 && IsOneLine(password)
  {
    OneLineIff(password);
    if IsOneLine(password) {
      var letter, digit := c => 'A' <= c <= 'Z' || 'a' <= c <= 'z', c => '0' <= c <= '9';
      LooksAheadIff(password, letter);
      LooksAheadIff(password, digit);
      assert forall c :: (letter(c) <==> IsLetter(c)) && (digit(c) <==> IsDigit(c));
    }
  }

  /** The characters of the text that are wanted. */
  function Found(text: string, wanted: char -> bool): set<char> { set c | c in text && wanted(c) }

  /** The shape: twelve characters that meet each of the four classes and none of the five confusable ones. */
  lemma ShapeMeetsClasses(password: string)
    ensures IsValidTemporaryShape(password) <==>
      && |password| == 12
      && Found(password, c => 'a' <= c <= 'z') != {} && Found(password, c => 'A' <= c <= 'Z') != {}
      && Found(password, c => '0' <= c <= '9') != {}
      && Found(password, c => c in ['!', '@', '#', '$', '%', '&', '*', '?']) != {}
      && Found(password, c => c in ['0', 'O', '1', 'l', 'I']) == {}
  {
    FoundIff(password, c => 'a' <= c <= 'z');
    FoundIff(password, c => 'A' <= c <= 'Z');
    FoundIff(password, c => '0' <= c <= '9');
    FoundIff(password, c => c in ['!', '@', '#', '$', '%', '&', '*', '?']);
    FoundIff(password, c => c in ['0', 'O', '1', 'l', 'I']);
    forall i | 0 <= i < |password|
      ensures IsSymbol(password[i]) <==> password[i] in ['!', '@', '#', '$', '%', '&', '*', '?']
      ensures IsAmbiguous(password[i]) <==> password[i] in ['0', 'O', '1', 'l', 'I']
    {
    }
    hide IsSymbol, IsAmbiguous, Found;
  }

  lemma FoundIff(text: string, wanted: char -> bool)
    ensures Found(text, wanted) != {} <==> exists i :: 0 <= i < |text| && wanted(text[i])
  {
    if i :| 0 <= i < |text| && wanted(text[i]) {
      assert text[i] in Found(text, wanted);
    }
    if Found(text, wanted) != {} {
      var c :| c in Found(text, wanted);
      assert c in text;
    }
  }

  type Bytes = s: seq<int> | forall i :: 0 <= i < |s| ==> 0 <= s[i] < 256

  function Pick(alphabet: string, b: nat): (c: char)
    requires alphabet != ""
    ensures c in alphabet
  {
    alphabet[b % |alphabet|]
  }

  /** The character at position `i` before the shuffle. */
  function Picked(bytes: Bytes, i: nat): (c: char)
    requires i < |bytes|
  {
    Pick(if i == 0 then SAFE_LOWER else if i == 1 then SAFE_UPPER else if i == 2 then SAFE_DIGITS
         else if i == 3 then SAFE_SYMBOLS else SAFE_ALL, bytes[i])
  }

  function AllPicked(bytes: Bytes): (s: string)
    ensures |s| == |bytes| && forall i :: 0 <= i < |s| ==> s[i] == Picked(bytes, i)
  {
    seq(|bytes|, i requires 0 <= i < |bytes| => Picked(bytes, i))
  }

  lemma LowerIsSafe(c: char)
    requires c in SAFE_LOWER
    ensures IsLower(c) && IsSafe(c)
  {
    assert SAFE_LOWER == "abcdefgh" + "jkm" + "npqrstuvwxyz";
    assert c in "abcdefgh" || c in "jkm" || c in "npqrstuvwxyz";
  }

  lemma UpperIsSafe(c: char)
    requires c in SAFE_UPPER
    ensures IsUpper(c) && IsSafe(c)
  {
    assert SAFE_UPPER == "ABCDEFGH" + "JKM" + "NPQRSTUVWXYZ";
    assert c in "ABCDEFGH" || c in "JKM" || c in "NPQRSTUVWXYZ";
  }

  lemma DigitIsSafe(c: char)
    requires c in SAFE_DIGITS
    ensures IsDigit(c) && IsSafe(c)
  {
  }

  lemma SymbolIsSafe(c: char)
    requires c in SAFE_SYMBOLS
    ensures IsSymbol(c) && IsSafe(c)
  {
  }

  lemma PickedIsSafe(bytes: Bytes, i: nat)
    requires i < |bytes|
    ensures IsSafe(Picked(bytes, i))
    ensures i == 0 ==> IsLower(Picked(bytes, i))
    ensures i == 1 ==> IsUpper(Picked(bytes, i))
    ensures i == 2 ==> IsDigit(Picked(bytes, i))
    ensures i == 3 ==> IsSymbol(Picked(bytes, i))
  {
    var c := Picked(bytes, i);
    hide IsSafe, IsLower, IsUpper, IsDigit, IsSymbol;
    if c in SAFE_LOWER && (i == 0 || i > 3) {
      LowerIsSafe(c);
    } else if c in SAFE_UPPER && (i == 1 || i > 3) {
      UpperIsSafe(c);
    } else if c in SAFE_DIGITS && (i == 2 || i > 3) {
      DigitIsSafe(c);
    } else {
      SymbolIsSafe(c);
    }
  }

  // How evenly the characters are picked

  /** Which characters each class has: no i, l or o, no 0 or 1. */
  lemma AlphabetsAre(c: char)
    ensures c in SAFE_LOWER <==> 'a' <= c <= 'z' && c !in ['i', 'l', 'o']
    ensures c in SAFE_UPPER <==> 'A' <= c <= 'Z' && c !in ['I', 'L', 'O']
    ensures c in SAFE_DIGITS <==> '2' <= c <= '9'
    ensures c in SAFE_SYMBOLS <==> c in ['!', '@', '#', '$', '%', '&', '*', '?']
    ensures c in SAFE_ALL <==> c in SAFE_LOWER || c in SAFE_UPPER || c in SAFE_DIGITS || c in SAFE_SYMBOLS
  {
    LowerAre(c);
    UpperAre(c);
  }

  lemma LowerAre(c: char)
    ensures c in SAFE_LOWER <==> 'a' <= c <= 'z' && c !in ['i', 'l', 'o']
  {
    assert SAFE_LOWER == "abcdefgh" + "jkm" + "npqrstuvwxyz";
    assert c in SAFE_LOWER <==> c in "abcdefgh" || c in "jkm" || c in "npqrstuvwxyz";
  }

  lemma UpperAre(c: char)
    ensures c in SAFE_UPPER <==> 'A' <= c <= 'Z' && c !in ['I', 'L', 'O']
  {
    assert SAFE_UPPER == "ABCDEFGH" + "JKM" + "NPQRSTUVWXYZ";
    assert c in SAFE_UPPER <==> c in "ABCDEFGH" || c in "JKM" || c in "NPQRSTUVWXYZ";
  }

  /** How many of the first `bytes` byte values pick this character. */
  function PicksOf(alphabet: string, c: char, bytes: nat): nat
    requires alphabet != ""
  {
    if bytes == 0 then 0
    else PicksOf(alphabet, c, bytes - 1) + if Pick(alphabet, bytes - 1) == c then 1 else 0
  }

  predicate AllDiffer(s: string) { forall i, j :: 0 <= i < j < |s| ==> s[i] != s[j] }

  predicate Ascending(s: string) { forall i :: 0 <= i < |s| - 1 ==> s[i] < s[i + 1] }

  lemma {:induction false} AscendingDiffer(s: string, i: nat, j: nat)
    requires Ascending(s) && i < j < |s|
    ensures s[i] < s[j]
    decreases j
  {
    if i < j - 1 {
      AscendingDiffer(s, i, j - 1);
    }
  }

  lemma AscendingAllDiffer(s: string)
    requires Ascending(s)
    ensures AllDiffer(s)
  {
    forall i, j | 0 <= i < j < |s| ensures s[i] != s[j] { AscendingDiffer(s, i, j); }
  }

  lemma ApartAllDiffer(s: string, t: string)
    requires AllDiffer(s) && AllDiffer(t) && forall c :: c in s ==> c !in t
    ensures AllDiffer(s + t)
  {
    forall i, j | 0 <= i < j < |s + t| ensures (s + t)[i] != (s + t)[j] {
      if i < |s| <= j {
        assert s[i] in s && t[j - |s|] in t;
      }
    }
  }

  /** No alphabet has a character twice. */
  lemma AlphabetsAllDiffer()
    ensures AllDiffer(SAFE_LOWER) && AllDiffer(SAFE_UPPER) && AllDiffer(SAFE_DIGITS) && AllDiffer(SAFE_SYMBOLS)
    ensures AllDiffer(SAFE_ALL)
  {
    AscendingAllDiffer(SAFE_LOWER);
    AscendingAllDiffer(SAFE_UPPER);
    AscendingAllDiffer(SAFE_DIGITS);
    SymbolsAllDiffer();
    ClassesAreApart();
    hide AllDiffer;
    ApartAllDiffer(SAFE_LOWER, SAFE_UPPER);
    ApartAllDiffer(SAFE_LOWER + SAFE_UPPER, SAFE_DIGITS);
    ApartAllDiffer(SAFE_LOWER + SAFE_UPPER + SAFE_DIGITS, SAFE_SYMBOLS);
  }

  lemma AlphabetSizes()
    ensures |SAFE_LOWER| == 23 && |SAFE_UPPER| == 23 && |SAFE_DIGITS| == 8 && |SAFE_SYMBOLS| == 8 && |SAFE_ALL| == 62
  {
  }

  lemma ClassesAreApart()
    ensures forall c :: c in SAFE_LOWER ==> c !in SAFE_UPPER
    ensures forall c :: c in SAFE_LOWER + SAFE_UPPER ==> c !in SAFE_DIGITS
    ensures forall c :: c in SAFE_LOWER + SAFE_UPPER + SAFE_DIGITS ==> c !in SAFE_SYMBOLS
  {
    forall c { AlphabetsAre(c); }
  }

  lemma SymbolsAllDiffer()
    ensures AllDiffer(SAFE_SYMBOLS)
  {
  }

  /** Where a number stands in the rounds of `n`: one more, and maybe the next round. */
  lemma NextInRound(b: nat, n: nat)
    requires n > 0
    ensures b % n == n - 1 ==> (b + 1) / n == b / n + 1 && (b + 1) % n == 0
    ensures b % n < n - 1 ==> (b + 1) / n == b / n && (b + 1) % n == b % n + 1
  {
    var q, r := b / n, b % n;
    assert b == n * q + r;
    if r == n - 1 {
      assert b + 1 == n * (q + 1);
      Quotient(b + 1, n, q + 1, 0);
    } else {
      Quotient(b + 1, n, q, r + 1);
    }
  }

  lemma Quotient(b: nat, n: nat, q: nat, r: nat)
    requires n > 0 && b == n * q + r && r < n
    ensures b / n == q && b % n == r
  {
    var p, s := b / n, b % n;
    assert n * p + s == n * q + r;
    if p > q {
      RoundsApart(n, q, p);
    } else if p < q {
      RoundsApart(n, p, q);
    }
  }

  lemma {:induction false} RoundsApart(n: nat, p: nat, q: nat)
    requires p < q
    ensures n * p + n <= n * q
    decreases q
  {
    assert n * q == n * (q - 1) + n;
    if p < q - 1 {
      RoundsApart(n, p, q - 1);
    }
  }

  lemma {:induction false} PicksInRounds(alphabet: string, k: nat, bytes: nat)
    requires AllDiffer(alphabet) && k < |alphabet|
    ensures PicksOf(alphabet, alphabet[k], bytes)
         == bytes / |alphabet| + if k < bytes % |alphabet| then 1 else 0
  {
    if bytes > 0 {
      PicksInRounds(alphabet, k, bytes - 1);
      OneMorePick(alphabet, k, bytes - 1);
      OneMoreByte(k, bytes - 1, |alphabet|);
      hide *;
    } else {
      Quotient(0, |alphabet|, 0, 0);
    }
  }

  lemma OneMoreByte(k: nat, b: nat, n: nat)
    requires k < n
    ensures (b + 1) / n + (if k < (b + 1) % n then 1 else 0)
         == b / n + (if k < b % n then 1 else 0) + (if b % n == k then 1 else 0)
  {
    NextInRound(b, n);
    RemainderInRange(b, n);
    var q, r, q', r' := b / n, b % n, (b + 1) / n, (b + 1) % n;
    assert if r == n - 1 then q' == q + 1 && r' == 0 else q' == q && r' == r + 1;
  }

  lemma RemainderInRange(b: nat, n: nat)
    requires n > 0
    ensures b % n < n
  {
  }

  lemma OneMorePick(alphabet: string, k: nat, b: nat)
    requires AllDiffer(alphabet) && k < |alphabet|
    ensures PicksOf(alphabet, alphabet[k], b + 1)
         == PicksOf(alphabet, alphabet[k], b) + if b % |alphabet| == k then 1 else 0
  {
    var r := b % |alphabet|;
    assert Pick(alphabet, b) == alphabet[r];
    assert alphabet[r] == alphabet[k] <==> r == k;
  }

  /** Over the 256 values of a byte every character of an alphabet is picked equally often, up to one. */
  lemma PicksAreEven(alphabet: string, k: nat)
    requires AllDiffer(alphabet) && k < |alphabet|
    ensures 256 / |alphabet| <= PicksOf(alphabet, alphabet[k], 256) <= 256 / |alphabet| + 1
  {
    PicksInRounds(alphabet, k, 256);
  }

  // The shuffle

  function Swapped(s: string, i: nat, j: nat): string
    requires i < |s| && j < |s|
  {
    s[i := s[j]][j := s[i]]
  }

  /** What remains of the shuffle when position `i` comes next. */
  function ShuffledFrom(s: string, bytes: Bytes, i: nat): (r: string)
    requires |s| == |bytes| && i <= |s|
    ensures |r| == |s|
    decreases i
  {
    if i <= 1 then s
    else ShuffledFrom(Swapped(s, i - 1, bytes[(i - 1) % |bytes|] % i), bytes, i - 1)
  }

  lemma SwapIsPermutation(s: string, i: nat, j: nat)
    requires i < |s| && j < |s|
    ensures multiset(Swapped(s, i, j)) == multiset(s)
  {
  }

  /** Whatever the bytes, the shuffle loses no character and adds none. */
  lemma {:induction false} ShuffleIsPermutation(s: string, bytes: Bytes, i: nat)
    requires |s| == |bytes| && i <= |s|
    ensures multiset(ShuffledFrom(s, bytes, i)) == multiset(s)
    decreases i
  {
    if i > 1 {
      var j := bytes[(i - 1) % |bytes|] % i;
      SwapIsPermutation(s, i - 1, j);
      ShuffleIsPermutation(Swapped(s, i - 1, j), bytes, i - 1);
    }
  }

  /** No order is out of reach: for every rearrangement of up to 256 characters there are bytes with which
      the shuffle produces it. */
  lemma ShuffleReachesAll(s: string, t: string)
    requires multiset(s) == multiset(t) && 0 < |s| <= 256
    ensures exists bytes: Bytes :: |bytes| == |s| && ShuffledFrom(s, bytes, |s|) == t
  {
    SameLength(s, t);
    var zeros: Bytes := seq(|s|, _ => 0);
    assert s[..|s|] == s && t[..|s|] == t;
    var bytes := BytesFor(s, t, |s|, zeros);
    assert ShuffledFrom(s, bytes, |s|) == t;
  }

  lemma SameLength(s: string, t: string)
    requires multiset(s) == multiset(t)
    ensures |s| == |t|
  {
    assert |multiset(s)| == |s| && |multiset(t)| == |t|;
  }

  lemma {:induction false} BytesFor(s: string, t: string, i: nat, given: Bytes) returns (bytes: Bytes)
    requires |s| == |t| == |given| && i <= |s| <= 256
    requires multiset(s[..i]) == multiset(t[..i]) && s[i..] == t[i..]
    ensures |bytes| == |s| && bytes[i..] == given[i..] && ShuffledFrom(s, bytes, i) == t
    decreases i
  {
    bytes := given;
    if i <= 1 {
      OneLeft(s, t, i);
    } else {
      hide ShuffledFrom, Swapped;
      var j := Place(s, t, i);
      SwapsIn(s, t, i, j);
      var asked: Bytes := given[i - 1 := j];
      bytes := BytesFor(Swapped(s, i - 1, j), t, i - 1, asked);
      assert bytes[i - 1..][0] == asked[i - 1..][0];
      assert bytes[i..] == bytes[i - 1..][1..] && given[i..] == asked[i - 1..][1..];
      ShuffleStep(s, bytes, i);
    }
  }

  lemma ShuffleStep(s: string, bytes: Bytes, i: nat)
    requires |s| == |bytes| && 1 < i <= |s| && bytes[i - 1] < i
    ensures ShuffledFrom(s, bytes, i) == ShuffledFrom(Swapped(s, i - 1, bytes[i - 1]), bytes, i - 1)
  {
    Quotient(i - 1, |bytes|, 0, i - 1);
    Quotient(bytes[i - 1], i, 0, bytes[i - 1]);
    hide Swapped;
  }

  lemma OneLeft(s: string, t: string, i: nat)
    requires |s| == |t| && i <= |s| && i <= 1 && multiset(s[..i]) == multiset(t[..i]) && s[i..] == t[i..]
    ensures s == t
  {
    assert s == s[..i] + s[i..] && t == t[..i] + t[i..];
    if i == 1 {
      assert s[..1] == [s[0]] && t[..1] == [t[0]];
      assert s[0] in multiset(t[..1]);
    }
  }

  /** Where the character stands that belongs at the last open position. */
  lemma Place(s: string, t: string, i: nat) returns (j: nat)
    requires |s| == |t| && 1 <= i <= |s| && multiset(s[..i]) == multiset(t[..i])
    ensures j < i && s[j] == t[i - 1]
  {
    assert t[..i][i - 1] in multiset(s[..i]);
    j :| 0 <= j < i && s[..i][j] == t[i - 1];
  }

  lemma SwapsIn(s: string, t: string, i: nat, j: nat)
    requires |s| == |t| && 1 <= i <= |s| && j < i && s[j] == t[i - 1]
    requires multiset(s[..i]) == multiset(t[..i]) && s[i..] == t[i..]
    ensures var next := Swapped(s, i - 1, j);
      multiset(next[..i - 1]) == multiset(t[..i - 1]) && next[i - 1..] == t[i - 1..]
  {
    var next := Swapped(s, i - 1, j);
    SwapInFront(s, i, j);
    SwapIsPermutation(s[..i], i - 1, j);
    hide Swapped;
    LastOfFront(next, i);
    LastOfFront(t, i);
    SameWithout(next[..i - 1], t[..i - 1], t[i - 1]);
  }

  lemma LastOfFront(s: string, i: nat)
    requires 1 <= i <= |s|
    ensures s[..i] == s[..i - 1] + [s[i - 1]] && s[i - 1..] == [s[i - 1]] + s[i..]
  {
  }

  lemma SameWithout(s: string, t: string, c: char)
    requires multiset(s + [c]) == multiset(t + [c])
    ensures multiset(s) == multiset(t)
  {
    assert multiset(s) == multiset(s + [c]) - multiset{c};
    assert multiset(t) == multiset(t + [c]) - multiset{c};
  }

  lemma SwapInFront(s: string, i: nat, j: nat)
    requires 1 <= i <= |s| && j < i
    ensures |Swapped(s, i - 1, j)| == |s| && Swapped(s, i - 1, j)[i - 1] == s[j]
    ensures Swapped(s, i - 1, j)[..i] == Swapped(s[..i], i - 1, j) && Swapped(s, i - 1, j)[i..] == s[i..]
  {
  }

  function TemporaryPassword(bytes: Bytes): (r: Result<string, PasswordError>) {
    if |bytes| < 8 then Err(TooShort) else Ok(ShuffledFrom(AllPicked(bytes), bytes, |bytes|))
  }

  /** Picks into an array, then shuffles it. */
  method GenerateReadableTemporaryPassword(length: int, bytes: Bytes) returns (r: Result<string, PasswordError>)
    requires length >= 8 ==> |bytes| == length
    ensures r == if length < 8 then Err(TooShort) else TemporaryPassword(bytes)
  {
    if length < 8 { return Err(TooShort); }
    var chars := PickCharacters(length, bytes);
    Shuffle(chars, bytes);
    return Ok(chars[..]);
  }

  /** The first loop: one character of each class, then any. */
  method PickCharacters(length: nat, bytes: Bytes) returns (chars: array<char>)
    requires length >= 8 && |bytes| == length
    ensures fresh(chars) && chars[..] == AllPicked(bytes)
  {
    hide Pick;
    chars := new char[length];
    chars[0] := Pick(SAFE_LOWER, bytes[0]);
    chars[1] := Pick(SAFE_UPPER, bytes[1]);
    chars[2] := Pick(SAFE_DIGITS, bytes[2]);
    chars[3] := Pick(SAFE_SYMBOLS, bytes[3]);
    for i := 4 to length
      invariant forall k :: 0 <= k < i ==> chars[k] == Picked(bytes, k)
    {
      chars[i] := Pick(SAFE_ALL, bytes[i]);
    }
  }

  /** The second loop, in place: from the last position down, each swaps with one not after it. */
  method Shuffle(chars: array<char>, bytes: Bytes)
    requires chars.Length == |bytes| > 0
    modifies chars
    ensures chars[..] == ShuffledFrom(old(chars[..]), bytes, |bytes|)
  {
    var i := chars.Length - 1;
    while i > 0
      invariant 0 <= i < chars.Length
      invariant ShuffledFrom(chars[..], bytes, i + 1) == ShuffledFrom(old(chars[..]), bytes, |bytes|)
    {
      var j := bytes[i % |bytes|] % (i + 1);
      ghost var before := chars[..];
      var tmp := chars[i];
      chars[i] := chars[j];
      chars[j] := tmp;
      assert chars[..] == Swapped(before, i, j);
      i := i - 1;
    }
  }

  lemma MemberOfPermutation(s: string, t: string, k: nat)
    requires multiset(s) == multiset(t) && k < |s|
    ensures s[k] in t
  {
    assert s[k] in multiset(s);
  }

  /** For every source of bytes: a permutation of the picked characters, in which a lower-case letter, an
      upper-case letter, a digit and a symbol survive, nothing ambiguous occurs, and which counts as strong. */
  lemma PasswordIsReadableAndStrong(bytes: Bytes)
    requires |bytes| >= 8
    ensures TemporaryPassword(bytes).Ok?
    ensures var p := TemporaryPassword(bytes).value;
      && multiset(p) == multiset(AllPicked(bytes))
      && |p| == |bytes|
      && (forall i :: 0 <= i < |p| ==> IsSafe(p[i]))
      && (exists i :: 0 <= i < |p| && IsLower(p[i]))
      && (exists i :: 0 <= i < |p| && IsUpper(p[i]))
      && (exists i :: 0 <= i < |p| && IsDigit(p[i]))
      && (exists i :: 0 <= i < |p| && IsSymbol(p[i]))
      && IsStrong(p)
      && (IsValidTemporaryShape(p) <==> |bytes| == TEMPORARY_PASSWORD_LENGTH)
  {
    var picked, p := AllPicked(bytes), TemporaryPassword(bytes).value;
    ShuffleIsPermutation(picked, bytes, |bytes|);
    hide ShuffledFrom, IsSafe, IsLower, IsUpper, IsDigit, IsSymbol, IsAmbiguous, Picked;
    forall i | 0 <= i < |p| ensures IsSafe(p[i]) && !IsAmbiguous(p[i]) && !EndsLine(p[i]) {
      MemberOfPermutation(p, picked, i);
      var k :| 0 <= k < |picked| && picked[k] == p[i];
      PickedIsSafe(bytes, k);
      SafeIsOneLine(p[i]);
    }
    forall k | 0 <= k < 4 ensures exists i :: 0 <= i < |p| && p[i] == picked[k] {
      MemberOfPermutation(picked, p, k);
    }
    PickedIsSafe(bytes, 0);
    PickedIsSafe(bytes, 1);
    PickedIsSafe(bytes, 2);
    PickedIsSafe(bytes, 3);
    assert IsLower(picked[0]) && IsUpper(picked[1]) && IsDigit(picked[2]) && IsSymbol(picked[3]);
    assert IsLetter(picked[0]);
  }

  lemma SafeIsOneLine(c: char)
    requires IsSafe(c)
    ensures !IsAmbiguous(c) && !EndsLine(c)
  {
  }
}
