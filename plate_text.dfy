/**
 * Character-level vocabulary shared by the three versions of the plate
 * helpers: the ASCII alphabet of a plate, the clean-up every helper applies
 * first (upper-case, then drop everything outside A-Z and 0-9), the
 * separators the formatter inserts, the confusion tables' lookup and the
 * three vehicle labels.
 */
module PlateText {

  /** The labels "Ô TÔ" (car), "XE MÁY" (motorbike) and "KHÔNG RÕ" (unknown). */
  datatype VehicleType = Car | Motorbike | Unknown

  predicate IsDigit(c: char) { '0' <= c <= '9' }

  predicate IsUpperLetter(c: char) { 'A' <= c <= 'Z' }

  /** One of the 36 glyphs a cleaned plate string may hold. */
  predicate IsPlateChar(c: char) { IsDigit(c) || IsUpperLetter(c) }

  predicate IsPlateText(s: string) {
    forall i :: 0 <= i < |s| ==> IsPlateChar(s[i])
  }

  /** `str.upper()` restricted to ASCII. */
  function ToUpper(c: char): (u: char)
    ensures 'a' <= c <= 'z' ==> IsUpperLetter(u) && u as int - 'A' as int == c as int - 'a' as int
    ensures !('a' <= c <= 'z') ==> u == c
  {
    if 'a' <= c <= 'z' then (c as int - 32) as char else c
  }

  /** `re.sub(r'[^A-Z0-9]', '', s.upper())`: upper-case, then keep only plate glyphs, in order. */
  function Clean(s: string): (r: string)
    ensures IsPlateText(r)
    ensures |r| <= |s|
  {
    if s == [] then []
    else (if IsPlateChar(ToUpper(s[0])) then [ToUpper(s[0])] else []) + Clean(s[1..])
  }

  /**
   * Cleaning one character: a lower-case letter becomes its own capital, a
   * capital or a digit stays, anything else is dropped. With CleanConcat
   * this fixes the result on every string.
   */
  lemma CleanChar(c: char)
    ensures Clean([c]) == if 'a' <= c <= 'z' then [ToUpper(c)] else if IsPlateChar(c) then [c] else []
  {
    assert [c][1..] == [];
    assert Clean([c]) == (if IsPlateChar(ToUpper(c)) then [ToUpper(c)] else []) + [];
  }

  /** A mixed line: lower case is raised, separators and other marks are dropped. */
  lemma CleanExample()
    ensures Clean("29a-1") == "29A1"
  {
  }

  /** Cleaning leaves a string that is already made of plate glyphs as it is. */
  lemma {:induction false} CleanKeepsPlateText(s: string)
    requires IsPlateText(s)
    ensures Clean(s) == s
  {
    if s != [] {
      assert IsPlateText(s[1..]) by {
        forall i | 0 <= i < |s[1..]| ensures IsPlateChar(s[1..][i]) {
          assert s[1..][i] == s[i + 1];
        }
      }
      CleanKeepsPlateText(s[1..]);
      assert IsPlateChar(s[0]);
    }
  }

  /** Cleaning works glyph by glyph, so it distributes over concatenation. */
  lemma {:induction false} CleanConcat(a: string, b: string)
    ensures Clean(a + b) == Clean(a) + Clean(b)
  {
    if a == [] {
      assert a + b == b;
    } else {
      var head := if IsPlateChar(ToUpper(a[0])) then [ToUpper(a[0])] else [];
      assert (a + b)[0] == a[0];
      assert (a + b)[1..] == a[1..] + b;
      CleanConcat(a[1..], b);
      calc {
        Clean(a + b);
        head + Clean(a[1..] + b);
        head + (Clean(a[1..]) + Clean(b));
        (head + Clean(a[1..])) + Clean(b);
        Clean(a) + Clean(b);
      }
    }
  }

  /** The separators the formatter inserts: '-', ' ' and '.'. */
  predicate IsSeparator(c: char) { c == '-' || c == ' ' || c == '.' }

  predicate HasNoSeparator(s: string) {
    forall i :: 0 <= i < |s| ==> !IsSeparator(s[i])
  }

  /** Deletes every separator, keeping the other characters in order. */
  function StripSeparators(s: string): (r: string)
    ensures HasNoSeparator(r)
  {
    if s == [] then []
    else (if IsSeparator(s[0]) then [] else [s[0]]) + StripSeparators(s[1..])
  }

  lemma {:induction false} StripConcat(a: string, b: string)
    ensures StripSeparators(a + b) == StripSeparators(a) + StripSeparators(b)
  {
    if a == [] {
      assert a + b == b;
    } else {
      assert (a + b)[0] == a[0];
      assert (a + b)[1..] == a[1..] + b;
      StripConcat(a[1..], b);
    }
  }

  lemma {:induction false} StripKeeps(s: string)
    requires HasNoSeparator(s)
    ensures StripSeparators(s) == s
  {
    if s != [] {
      assert HasNoSeparator(s[1..]) by {
        forall i | 0 <= i < |s[1..]| ensures !IsSeparator(s[1..][i]) {
          assert s[1..][i] == s[i + 1];
        }
      }
      StripKeeps(s[1..]);
    }
  }

  /** Stripping `a + [sep] + b`, where sep is a separator and b holds none, strips a and keeps b. */
  lemma StripAfterSeparator(a: string, sep: char, b: string)
    requires IsSeparator(sep)
    requires HasNoSeparator(b)
    ensures StripSeparators(a + [sep] + b) == StripSeparators(a) + b
  {
    var strippedA := StripSeparators(a);
    StripConcat(a + [sep], b);
    StripConcat(a, [sep]);
    assert StripSeparators([sep]) == [] by {
      assert [sep][1..] == [];
    }
    StripKeeps(b);
    assert strippedA + [] == strippedA;
  }

  lemma PlateTextHasNoSeparator(s: string)
    requires IsPlateText(s)
    ensures HasNoSeparator(s)
  {
    forall i | 0 <= i < |s| ensures !IsSeparator(s[i]) {
      assert IsPlateChar(s[i]);
    }
  }

  /** `if c in table: c = table[c]`: the confusion-table lookup every correction slot performs. */
  function Apply(table: map<char, char>, c: char): char {
    if c in table then table[c] else c
  }

  /** Every key of the table is a letter and every value a digit. */
  predicate LettersToDigits(table: map<char, char>) {
    forall k :: k in table ==> IsUpperLetter(k) && IsDigit(table[k])
  }

  /** Every key of the table is a digit and every value a letter. */
  predicate DigitsToLetters(table: map<char, char>) {
    forall k :: k in table ==> IsDigit(k) && IsUpperLetter(table[k])
  }

  /** The tables' shape, letters to digits or digits to letters. */
  predicate IsConfusionTable(table: map<char, char>) {
    LettersToDigits(table) || DigitsToLetters(table)
  }

  /**
   * A lookup in a confusion table keeps plate glyphs plate glyphs, and a
   * second lookup in the same table changes nothing: no value is a key.
   */
  lemma ApplyProperties(table: map<char, char>, c: char)
    requires IsConfusionTable(table)
    ensures IsPlateChar(c) ==> IsPlateChar(Apply(table, c))
    ensures Apply(table, c) !in table
    ensures Apply(table, Apply(table, c)) == Apply(table, c)
  {
  }

  /** The text cut to its first nine characters, as every formatter does first. */
  function Truncate9(s: string): (r: string)
    ensures |r| == if |s| > 9 then 9 else |s|
    ensures r == s[..|r|]
  {
    if |s| > 9 then s[..9] else s
  }

  /**
   * A separator layout: '#' in `pattern` stands for one plate glyph, every
   * other pattern character must appear as it is.
   */
  predicate FitsPattern(s: string, pattern: string) {
    |s| == |pattern| &&
    forall i :: 0 <= i < |s| ==> if pattern[i] == '#' then IsPlateChar(s[i]) else s[i] == pattern[i]
  }

  /** n placeholders. */
  function Glyphs(n: nat): (p: string)
    ensures |p| == n && forall i :: 0 <= i < n ==> p[i] == '#'
  {
    if n == 0 then [] else Glyphs(n - 1) + "#"
  }
}
