/** Joining string components with a separator that none of them contains. */
module Joining {

  predicate Free(sep: char, s: string) {
    sep !in s
  }

  predicate AllFree(sep: char, parts: seq<string>) {
    forall i | 0 <= i < |parts| :: Free(sep, parts[i])
  }

  /** The parts with the separator between them (strings.Join). */
  function Join(sep: char, parts: seq<string>): string {
    if parts == [] then ""
    else if |parts| == 1 then parts[0]
    else parts[0] + [sep] + Join(sep, parts[1..])
  }

  /** The text up to the first separator. */
  function Head(sep: char, s: string): string {
    if s == "" || s[0] == sep then "" else [s[0]] + Head(sep, s[1..])
  }

  /** The parts between the separators (strings.Split). */
  function Split(sep: char, s: string): (parts: seq<string>)
    decreases |s|
  {
    var head := Head(sep, s);
    if |head| >= |s| then [s] else [head] + Split(sep, s[|head| + 1..])
  }

  lemma {:induction false} HeadOf(sep: char, a: string, rest: string)
    requires Free(sep, a) && (rest == "" || rest[0] == sep)
    ensures Head(sep, a + rest) == a
  {
    if a == "" {
      assert a + rest == rest;
    } else {
      assert (a + rest)[1..] == a[1..] + rest;
      assert a[0] in a && forall c | c in a[1..] :: c in a;
      HeadOf(sep, a[1..], rest);
    }
  }

  /** Splitting undoes joining. */
  lemma {:induction false} SplitJoin(sep: char, parts: seq<string>)
    requires parts != [] && AllFree(sep, parts)
    ensures Split(sep, Join(sep, parts)) == parts
  {
    if |parts| == 1 {
      HeadOf(sep, parts[0], "");
      assert parts[0] + "" == parts[0];
    } else {
      var rest := Join(sep, parts[1..]);
      HeadOf(sep, parts[0], [sep] + rest);
      assert parts[0] + ([sep] + rest) == parts[0] + [sep] + rest;
      SplitJoin(sep, parts[1..]);
      assert (parts[0] + [sep] + rest)[|parts[0]| + 1..] == rest;
    }
  }

  /** Distinct non-empty lists of separator-free parts are joined to distinct texts. */
  lemma JoinInjective(sep: char, p: seq<string>, q: seq<string>)
    requires p != [] && q != [] && AllFree(sep, p) && AllFree(sep, q)
    requires Join(sep, p) == Join(sep, q)
    ensures p == q
  {
    SplitJoin(sep, p);
    SplitJoin(sep, q);
  }

  lemma {:induction false} HeadParts(sep: char, s: string)
    ensures var h := Head(sep, s);
            Free(sep, h) && h <= s && (|h| < |s| ==> s[|h|] == sep)
  {
    if s != "" && s[0] != sep {
      HeadParts(sep, s[1..]);
    }
  }

  /** Joining undoes splitting, and the parts have no separator in them. */
  lemma {:induction false} JoinSplit(sep: char, s: string)
    ensures Split(sep, s) != [] && AllFree(sep, Split(sep, s))
    ensures Join(sep, Split(sep, s)) == s
    decreases |s|
  {
    var head := Head(sep, s);
    HeadParts(sep, s);
    if |head| < |s| {
      var rest := s[|head| + 1..];
      JoinSplit(sep, rest);
      var parts := [head] + Split(sep, rest);
      assert parts[1..] == Split(sep, rest);
      assert s == head + [sep] + rest;
    }
  }
}
