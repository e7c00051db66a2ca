/** The `to_uppercase` example from the documentation of src/lib.rs: a
    string that is already upper case is returned borrowed, any other string
    is returned as an owned upper-cased copy. `char::is_uppercase` and
    `str::to_uppercase` use Unicode tables outside the crate, so they are
    parameters; an ASCII instance of them gives the two documented cases. */
module ToUppercaseExample {
  import opened NostdCow

  /** Every character of `s` satisfies `isUppercase`. */
  predicate AllUppercase(s: string, isUppercase: char -> bool) {
    forall i :: 0 <= i < |s| ==> isUppercase(s[i])
  }

  /** What `to_uppercase` returns for `source`. */
  function UppercaseResult(source: string, isUppercase: char -> bool,
                           toUppercase: string -> string): NoStdCow<string, string> {
    if AllUppercase(source, isUppercase) then Borrowed(source) else Owned(toUppercase(source))
  }

  /** The loop of the example: scan the characters, return an owned
      upper-cased copy at the first one that is not upper case, and borrow
      the source if there is none. */
  method ToUppercase(source: string, isUppercase: char -> bool,
                     toUppercase: string -> string) returns (r: NoStdCow<string, string>)
    ensures r == UppercaseResult(source, isUppercase, toUppercase)
    ensures IsBorrowed(r) <==> AllUppercase(source, isUppercase)
    ensures IsBorrowed(r) ==> r.b == source
    ensures IsOwned(r) ==> r.v == toUppercase(source)
  {
    var i := 0;
    while i < |source|
      invariant 0 <= i <= |source|
      invariant forall k :: 0 <= k < i ==> isUppercase(source[k])
    {
      if !isUppercase(source[i]) {
        return Owned(toUppercase(source));
      }
      i := i + 1;
    }
    return Borrowed(source);
  }

  /** `char::is_uppercase` on the ASCII range. */
  predicate AsciiIsUppercase(c: char) {
    'A' <= c <= 'Z'
  }

  /** `char::to_uppercase` on the ASCII range: lower-case letters move up by
      32 code points, every other character is kept. */
  function AsciiUpperChar(c: char): (u: char)
    ensures 'a' <= c <= 'z' ==> AsciiIsUppercase(u) && u as int == c as int - 32
    ensures !('a' <= c <= 'z') ==> u == c
  {
    if 'a' <= c <= 'z' then (c as int - 32) as char else c
  }

  /** `str::to_uppercase` on ASCII text, character by character. */
  function AsciiToUppercase(s: string): (r: string)
    ensures |r| == |s|
    ensures forall i :: 0 <= i < |s| ==> r[i] == AsciiUpperChar(s[i])
  {
    if s == [] then [] else [AsciiUpperChar(s[0])] + AsciiToUppercase(s[1..])
  }

  /** Upper-casing a string made only of ASCII letters gives an all upper
      case string. */
  lemma AsciiToUppercaseOfLetters(s: string)
    requires forall i :: 0 <= i < |s| ==> 'a' <= s[i] <= 'z' || 'A' <= s[i] <= 'Z'
    ensures AllUppercase(AsciiToUppercase(s), AsciiIsUppercase)
  {
    var r := AsciiToUppercase(s);
    forall i | 0 <= i < |r| ensures AsciiIsUppercase(r[i]) {
      assert r[i] == AsciiUpperChar(s[i]);
    }
  }

  /** A string without lower-case letters, in particular an all upper case
      one, is left as it is by upper-casing. */
  lemma AsciiToUppercaseKeepsNonLower(s: string)
    requires forall i :: 0 <= i < |s| ==> !('a' <= s[i] <= 'z')
    ensures AsciiToUppercase(s) == s
  {
    var u := AsciiToUppercase(s);
    forall i | 0 <= i < |s| ensures u[i] == s[i] {
      assert u[i] == AsciiUpperChar(s[i]);
    }
  }

  /** For every input the example's result reads as the upper-cased input,
      whichever variant it is. */
  lemma UppercaseResultReadsUpper(source: string)
    ensures Deref(UppercaseResult(source, AsciiIsUppercase, AsciiToUppercase), s => s)
            == AsciiToUppercase(source)
  {
    if AllUppercase(source, AsciiIsUppercase) {
      AsciiToUppercaseKeepsNonLower(source);
    }
  }

  /** A string that already reads as upper case but holds a character that
      is not upper case (a space) is still returned owned. */
  lemma SpacedHelloWorldIsOwned()
    ensures UppercaseResult("HELLO WORLD", AsciiIsUppercase, AsciiToUppercase) == Owned("HELLO WORLD")
    ensures AsciiToUppercase("HELLO WORLD") == "HELLO WORLD"
  {
    var s := "HELLO WORLD";
    assert !AsciiIsUppercase(s[5]);
    AsciiToUppercaseKeepsNonLower(s);
  }

  /** "HELLOWORLD" is already upper case. */
  lemma HelloWorldIsUppercase()
    ensures AllUppercase("HELLOWORLD", AsciiIsUppercase)
  {
  }

  /** Upper-casing "helloworld" gives "HELLOWORLD". */
  lemma UppercaseOfHelloWorld()
    ensures AsciiToUppercase("helloworld") == "HELLOWORLD"
  {
  }

  /** The two assertions of the example: "HELLOWORLD" stays borrowed,
      "helloworld" becomes an owned "HELLOWORLD". */
  lemma DocExample()
    ensures UppercaseResult("HELLOWORLD", AsciiIsUppercase, AsciiToUppercase) == Borrowed("HELLOWORLD")
    ensures UppercaseResult("helloworld", AsciiIsUppercase, AsciiToUppercase) == Owned("HELLOWORLD")
  {
    HelloWorldIsUppercase();
    assert !AsciiIsUppercase("helloworld"[0]);
    UppercaseOfHelloWorld();
  }
}
