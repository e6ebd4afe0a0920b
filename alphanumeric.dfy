/** The random-string generator written out twice in the site: generateAuthorizationCode
    (app/oauth/authorize/page.tsx) and generateToken (app/oauth/token/route.ts) both append
    characters drawn with Math.random from the same 62-character alphabet. The random draw
    is a nondeterministic choice of an index into the alphabet. */
module Alphanumeric {

  /** The n consecutive code points starting at `first`. */
  function CharRange(first: char, n: nat): (r: string)
    requires first as int + n <= 0xD800
    ensures |r| == n && forall i :: 0 <= i < n ==> r[i] as int == first as int + i
  {
    seq(n, i requires 0 <= i < n => (first as int + i) as char)
  }

  /** `chars`: A to Z, then a to z, then 0 to 9. */
  const Chars: string := CharRange('A', 26) + CharRange('a', 26) + CharRange('0', 10)

  predicate IsAlnum(c: char)
  {
    'A' <= c <= 'Z' || 'a' <= c <= 'z' || '0' <= c <= '9'
  }

  /** The alphabet is exactly the ASCII letters and digits. */
  lemma AlphabetIsAlnum()
    ensures |Chars| == 62
    ensures forall c :: c in Chars <==> IsAlnum(c)
  {
    forall c | IsAlnum(c) ensures c in Chars {
      if 'A' <= c <= 'Z' {
        assert Chars[c as int - 'A' as int] == c;
      } else if 'a' <= c <= 'z' {
        assert Chars[26 + c as int - 'a' as int] == c;
      } else {
        assert Chars[52 + c as int - '0' as int] == c;
      }
    }
  }

  /** n characters, each drawn independently from the alphabet. */
  method RandomString(n: nat) returns (result: string)
    ensures |result| == n
    ensures forall i :: 0 <= i < n ==> IsAlnum(result[i])
  {
    result := "";
    for i := 0 to n
      invariant |result| == i
      invariant forall j :: 0 <= j < i ==> result[j] in Chars
    {
      var k :| 0 <= k < |Chars|;
      result := result + [Chars[k]];
    }
    AlphabetIsAlnum();
  }
}
