/** Character-level helpers the components share. */
module Text {

  /** Case folding, on the ASCII letters. */
  function Fold(s: string): string {
    seq(|s|, i requires 0 <= i < |s| => if 'A' <= s[i] <= 'Z' then s[i] - 'A' + 'a' else s[i])
  }

  /** Capitals move to the small letters 32 code points on; no other character changes. */
  lemma FoldsCapitals(s: string, i: nat)
    requires i < |s|
    ensures |Fold(s)| == |s|
    ensures Fold(s)[i] as int == s[i] as int + if 65 <= s[i] as int <= 90 then 32 else 0
  {
  }

  predicate EndsWith(s: string, suffix: string) {
    |suffix| <= |s| && s[|s| - |suffix|..] == suffix
  }

  predicate StartsWith(s: string, prefix: string) {
    prefix <= s
  }

  predicate IsHex(s: string, length: nat) {
    |s| == length && forall i :: 0 <= i < |s| ==> '0' <= s[i] <= '9' || 'a' <= s[i] <= 'f'
  }

  /** White space as the language's own test sees it, up to U+00A0. */
  predicate IsSpace(c: char) {
    c in {' ', '\t', '\n', '\r', '\U{0B}', '\U{0C}', '\U{1C}', '\U{1D}', '\U{1E}', '\U{1F}', '\U{85}', '\U{A0}'}
  }

  predicate AllSpace(s: string) {
    forall k :: 0 <= k < |s| ==> IsSpace(s[k])
  }

  /** Number of leading characters equal to c. */
  function RunLength(s: string, c: char): (n: nat)
    ensures n <= |s|
  {
    if s != "" && s[0] == c then 1 + RunLength(s[1..], c) else 0
  }

  lemma {:induction false} RunOfPrefix(prefix: string, rest: string, c: char)
    requires forall k :: 0 <= k < |prefix| ==> prefix[k] == c
    requires rest == "" || rest[0] != c
    ensures RunLength(prefix + rest, c) == |prefix|
  {
    if prefix == "" {
      assert prefix + rest == rest;
    } else {
      assert (prefix + rest)[1..] == prefix[1..] + rest;
      RunOfPrefix(prefix[1..], rest, c);
    }
  }

  /** n times the same character. */
  function Repeat(c: char, n: nat): (run: string)
    ensures |run| == n && forall k :: 0 <= k < n ==> run[k] == c
  {
    seq(n, _ => c)
  }

  /** The run is what stands before the first other character. */
  lemma {:induction false} RunParts(s: string, c: char)
    ensures forall k :: 0 <= k < RunLength(s, c) ==> s[k] == c
    ensures RunLength(s, c) < |s| ==> s[RunLength(s, c)] != c
  {
    if s != "" && s[0] == c { RunParts(s[1..], c); }
  }

  // ---- Newlines ----

  function NormalizeNewlines(text: string): string {
    if text == "" then ""
    else if text[0] != '\r' then [text[0]] + NormalizeNewlines(text[1..])
    else if |text| >= 2 && text[1] == '\n' then ['\n'] + NormalizeNewlines(text[2..])
    else ['\n'] + NormalizeNewlines(text[1..])
  }

  /** CR LF and a CR on its own both become LF; everything else stays. */
  lemma NewlinesNormalize(c: char, rest: string)
    ensures NormalizeNewlines("") == ""
    ensures NormalizeNewlines("\r\n" + rest) == "\n" + NormalizeNewlines(rest)
    ensures c != '\r' ==> NormalizeNewlines([c] + rest) == [c] + NormalizeNewlines(rest)
    ensures !("\n" <= rest) ==> NormalizeNewlines("\r" + rest) == "\n" + NormalizeNewlines(rest)
  {
    assert ("\r\n" + rest)[2..] == rest && ([c] + rest)[1..] == rest && ("\r" + rest)[1..] == rest;
    if rest != "" { assert rest[..1] == [rest[0]]; }
  }

  ghost predicate NoReturn(t: string) {
    '\r' !in t
  }

  lemma {:induction false} NormalizedHasNoReturn(text: string)
    ensures NoReturn(NormalizeNewlines(text))
  {
    if text == "" {
    } else if text[0] != '\r' {
      NormalizedHasNoReturn(text[1..]);
    } else if |text| >= 2 && text[1] == '\n' {
      NormalizedHasNoReturn(text[2..]);
    } else {
      NormalizedHasNoReturn(text[1..]);
    }
  }

  lemma {:induction false} NormalizeFixes(text: string)
    requires NoReturn(text)
    ensures NormalizeNewlines(text) == text
  {
    if text != "" { NormalizeFixes(text[1..]); }
  }

  // ---- Splitting ----

  function IndexOf(s: string, c: char): (n: nat)
    ensures n <= |s| && (n < |s| ==> s[n] == c)
    ensures forall k :: 0 <= k < n ==> s[k] != c
  {
    if s == "" || s[0] == c then 0 else 1 + IndexOf(s[1..], c)
  }

  function Split(s: string, c: char): (parts: seq<string>)
    ensures |parts| >= 1
    decreases |s|
  {
    var n := IndexOf(s, c);
    if n == |s| then [s] else [s[..n]] + Split(s[n + 1..], c)
  }

  lemma JoinedParts(a: string, b: string, c: char, n: nat)
    requires n <= |a|
    ensures (a + [c] + b)[..n] == a[..n]
    ensures n == |a| ==> (a + [c] + b)[n + 1..] == b && a[..n] == a
    ensures n < |a| ==> (a + [c] + b)[n + 1..] == a[n + 1..] + [c] + b
  {
  }

  lemma SplitFirst(whole: string, first: string, rest: string, c: char, n: nat)
    requires n < |whole| && IndexOf(whole, c) == n && whole[..n] == first && whole[n + 1..] == rest
    ensures Split(whole, c) == [first] + Split(rest, c)
  {
  }

  lemma Regroup<T>(x: seq<T>, y: seq<T>, z: seq<T>)
    ensures x + (y + z) == (x + y) + z
  {
  }

  lemma {:induction false} SplitJoined(a: string, b: string, c: char)
    ensures Split(a + [c] + b, c) == Split(a, c) + Split(b, c)
    decreases |a|
  {
    var n := IndexOf(a, c);
    IndexInJoined(a, b, c);
    JoinedParts(a, b, c, n);
    if n == |a| {
      SplitFirst(a + [c] + b, a, b, c, n);
    } else {
      var rest := a[n + 1..];
      SplitFirst(a + [c] + b, a[..n], rest + [c] + b, c, n);
      SplitJoined(rest, b, c);
      SplitFirst(a, a[..n], rest, c, n);
      Regroup([a[..n]], Split(rest, c), Split(b, c));
    }
  }

  lemma {:induction false} IndexInJoined(a: string, b: string, c: char)
    ensures IndexOf(a + [c] + b, c) == IndexOf(a, c)
  {
    if a != "" && a[0] != c {
      assert (a + [c] + b)[1..] == a[1..] + [c] + b;
      IndexInJoined(a[1..], b, c);
    } else if a == "" {
      assert (a + [c] + b)[0] == c;
    }
  }

  lemma {:induction false} SplitWhole(s: string, c: char)
    requires c !in s
    ensures Split(s, c) == [s]
  {
    assert IndexOf(s, c) == |s|;
  }

  function Join(parts: seq<string>, c: char): string {
    if parts == [] then ""
    else if |parts| == 1 then parts[0]
    else parts[0] + [c] + Join(parts[1..], c)
  }

  lemma {:induction false} SplitPartsClean(s: string, c: char)
    ensures forall k :: 0 <= k < |Split(s, c)| ==> c !in Split(s, c)[k]
    decreases |s|
  {
    var n := IndexOf(s, c);
    if n == |s| {
      assert forall k :: 0 <= k < |s| ==> s[k] != c;
    } else {
      SplitPartsClean(s[n + 1..], c);
      assert c !in s[..n];
    }
  }

  lemma JoinFirst(first: string, rest: seq<string>, c: char)
    requires rest != []
    ensures Join([first] + rest, c) == first + [c] + Join(rest, c)
  {
    assert ([first] + rest)[1..] == rest;
  }

  lemma Rejoined(s: string, c: char, n: nat)
    requires n < |s| && s[n] == c
    ensures s[..n] + [c] + s[n + 1..] == s
  {
  }

  lemma {:induction false} JoinOfSplit(s: string, c: char)
    ensures Join(Split(s, c), c) == s
    decreases |s|
  {
    var n := IndexOf(s, c);
    if n < |s| {
      var first, rest := s[..n], s[n + 1..];
      SplitFirst(s, first, rest, c, n);
      JoinOfSplit(rest, c);
      JoinFirst(first, Split(rest, c), c);
      Rejoined(s, c, n);
    }
  }

  lemma {:induction false} SplitOfJoin(parts: seq<string>, c: char)
    requires parts != [] && forall k :: 0 <= k < |parts| ==> c !in parts[k]
    ensures Split(Join(parts, c), c) == parts
  {
    SplitWhole(parts[0], c);
    if |parts| > 1 {
      SplitOfJoin(parts[1..], c);
      SplitJoined(parts[0], Join(parts[1..], c), c);
    }
  }

  // ---- Order ----

  /** Lexicographic order by code point. */
  predicate Precedes(a: string, b: string) {
    if b == "" then false
    else if a == "" then true
    else if a[0] != b[0] then a[0] < b[0]
    else Precedes(a[1..], b[1..])
  }

  lemma {:induction false} PrefixPrecedes(a: string, b: string)
    requires a < b
    ensures Precedes(a, b)
  {
    if a != "" { PrefixPrecedes(a[1..], b[1..]); }
  }

  lemma {:induction false} PrecedesIsLinear(a: string, b: string, c: string)
    ensures !Precedes(a, a)
    ensures Precedes(a, b) ==> !Precedes(b, a)
    ensures a == b || Precedes(a, b) || Precedes(b, a)
    ensures !Precedes(b, a) && !Precedes(c, b) ==> !Precedes(c, a)
  {
    if a != "" {
      PrecedesIsLinear(a[1..], if b == "" then "" else b[1..], if c == "" then "" else c[1..]);
      assert a == [a[0]] + a[1..] && (b != "" ==> b == [b[0]] + b[1..]);
    }
  }

  lemma {:induction false} PrecedesBelow(prefix: string, a: string, b: string)
    ensures Precedes(prefix + a, prefix + b) <==> Precedes(a, b)
  {
    if prefix == "" {
      assert prefix + a == a && prefix + b == b;
    } else {
      assert (prefix + a)[1..] == prefix[1..] + a && (prefix + b)[1..] == prefix[1..] + b;
      PrecedesBelow(prefix[1..], a, b);
    }
  }
}
