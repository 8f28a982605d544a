/**
 * snake_case to camelCase conversion, used for every identifier the
 * scanner generates.
 */
module Camel {

  /** ASCII upper-casing: `a`..`z` become `A`..`Z`, every other character is kept. */
  function Upper(c: char): (r: char)
    ensures 'a' <= c <= 'z' ==> 'A' <= r <= 'Z' && r as int - 'A' as int == c as int - 'a' as int
    ensures !('a' <= c <= 'z') ==> r == c
  {
    if 'a' <= c <= 'z' then (c as int - 32) as char else c
  }

  /**
   * The underscore at position i is dropped: it is not the first
   * character, it has a successor, and that successor is not an underscore.
   */
  predicate DropsAt(s: string, i: int)
  {
    0 < i && i + 1 < |s| && s[i] == '_' && s[i + 1] != '_'
  }

  /**
   * What position i of the input contributes to the output: nothing for a
   * dropped underscore, the upper-cased character right after one, and the
   * character itself everywhere else.
   */
  function Piece(s: string, i: nat): string
    requires i < |s|
  {
    if DropsAt(s, i) then ""
    else if DropsAt(s, i - 1) then [Upper(s[i])]
    else [s[i]]
  }

  /** The output contributed by the first n positions of the input. */
  function CamelPrefix(s: string, n: nat): string
    requires n <= |s|
  {
    if n == 0 then "" else CamelPrefix(s, n - 1) + Piece(s, n - 1)
  }

  /** The camelCase form of a snake_case identifier. */
  function Camel(s: string): string
  {
    CamelPrefix(s, |s|)
  }

  /**
   * The conversion loop: a dropped underscore consumes its successor too,
   * so the index advances by two.
   */
  method Camelize(snake: string) returns (result: string)
    ensures result == Camel(snake)
  {
    result := "";
    var i := 0;
    while i < |snake|
      invariant 0 <= i <= |snake|
      invariant result == CamelPrefix(snake, i)
      invariant !DropsAt(snake, i - 1)
    {
      if snake[i] == '_' && i != 0 && i + 1 < |snake| && snake[i + 1] != '_' {
        assert CamelPrefix(snake, i + 1) == result;
        result := result + [Upper(snake[i + 1])];
        i := i + 2;
        continue;
      }
      result := result + [snake[i]];
      i := i + 1;
    }
  }

  /** Number of dropped underscores among the first n positions. */
  function Drops(s: string, n: nat): nat
    requires n <= |s|
  {
    if n == 0 then 0 else Drops(s, n - 1) + (if DropsAt(s, n - 1) then 1 else 0)
  }

  /** The output is shorter than the input by exactly the number of dropped underscores. */
  lemma {:induction false} CamelLength(s: string, n: nat)
    requires n <= |s|
    ensures |CamelPrefix(s, n)| == n - Drops(s, n)
  {
    if n > 0 {
      CamelLength(s, n - 1);
    }
  }

  /** An identifier without underscores is left unchanged. */
  lemma {:induction false} NoUnderscoreUnchanged(s: string, n: nat)
    requires n <= |s|
    requires forall i :: 0 <= i < |s| ==> s[i] != '_'
    ensures CamelPrefix(s, n) == s[..n]
  {
    if n > 0 {
      NoUnderscoreUnchanged(s, n - 1);
      assert s[..n] == s[..n - 1] + [s[n - 1]];
    }
  }

  /** The first character is always copied unchanged. */
  lemma {:induction false} FirstCharKept(s: string, n: nat)
    requires 0 < n <= |s|
    ensures |CamelPrefix(s, n)| > 0 && CamelPrefix(s, n)[0] == s[0]
  {
    if n > 1 {
      FirstCharKept(s, n - 1);
    }
  }

  /**
   * An identifier that neither starts nor ends with an underscore and has
   * no two underscores in a row loses all its underscores.
   */
  lemma {:induction false} SingleUnderscoresAllDropped(s: string, n: nat)
    requires n <= |s|
    requires |s| > 0 && s[0] != '_' && s[|s| - 1] != '_'
    requires forall i :: 0 <= i < |s| - 1 ==> !(s[i] == '_' && s[i + 1] == '_')
    ensures '_' !in CamelPrefix(s, n)
  {
    if n > 0 {
      SingleUnderscoresAllDropped(s, n - 1);
      var i := n - 1;
      if s[i] == '_' {
        assert DropsAt(s, i);
      } else if DropsAt(s, i - 1) {
        assert Upper(s[i]) != '_';
      }
    }
  }

  /** The class name generated for interface `widget`. */
  lemma ClassNameOfWidget()
    ensures Camel("C_widget") == "CWidget"
  {
    var s := "C_widget";
    assert CamelPrefix(s, 1) == "C";
    assert DropsAt(s, 1);
    assert CamelPrefix(s, 2) == "C";
    assert CamelPrefix(s, 3) == "CW";
    assert CamelPrefix(s, 4) == "CWi";
    assert CamelPrefix(s, 5) == "CWid";
    assert CamelPrefix(s, 6) == "CWidg";
    assert CamelPrefix(s, 7) == "CWidge";
    assert CamelPrefix(s, 8) == "CWidget";
  }
}
