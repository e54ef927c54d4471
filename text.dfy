/**
 * The JavaScript string operations the application relies on, over `seq<char>`:
 * substring search, `replace` with a string pattern, a global literal replace,
 * `split` on one character and its inverse `join`, ASCII `toLowerCase`, ASCII
 * `trim`, and `String(n)` for integers.
 */
module Text {
  import opened Wrappers

  /** JavaScript truthiness of an optional string: present and not empty. */
  predicate Truthy(s: Option<string>) {
    s.Some? && s.value != ""
  }

  /** `p` occurs in `s` starting at index `i`. */
  predicate OccursAt(s: string, p: string, i: int) {
    0 <= i && i + |p| <= |s| && s[i..i + |p|] == p
  }

  /** `s.includes(p)`. */
  predicate Contains(s: string, p: string) {
    exists i :: 0 <= i <= |s| - |p| && OccursAt(s, p, i)
  }

  lemma OccursAtShift(s: string, p: string, j: int)
    requires |s| > 0 && j >= 0
    ensures OccursAt(s, p, j + 1) <==> OccursAt(s[1..], p, j)
  {
    if 0 <= j && j + 1 + |p| <= |s| {
      assert s[1..][j..j + |p|] == s[j + 1..j + 1 + |p|];
    }
  }

  /** `s.indexOf(p)`: the first index at which `p` occurs, if any. */
  function IndexOf(s: string, p: string): (r: Option<nat>)
    ensures r.Some? ==> OccursAt(s, p, r.value)
    ensures r.Some? ==> forall j :: 0 <= j < r.value ==> !OccursAt(s, p, j)
    ensures r.None? <==> !Contains(s, p)
    decreases |s|
  {
    if |s| < |p| then None
    else if s[..|p|] == p then Some(0)
    else
      var rest := IndexOf(s[1..], p);
      assert !OccursAt(s, p, 0);
      assert forall j :: 0 <= j ==> (OccursAt(s, p, j + 1) <==> OccursAt(s[1..], p, j)) by {
        forall j | 0 <= j ensures OccursAt(s, p, j + 1) <==> OccursAt(s[1..], p, j) {
          OccursAtShift(s, p, j);
        }
      }
      assert forall j :: OccursAt(s, p, j) ==> j >= 1 && OccursAt(s[1..], p, j - 1) by {
        forall j | OccursAt(s, p, j) ensures j >= 1 && OccursAt(s[1..], p, j - 1) {
          OccursAtShift(s, p, j - 1);
        }
      }
      match rest
      case Some(k) => Some(k + 1)
      case None => None
  }

  /** The first index of character `c` in `s`, if any. */
  function IndexOfChar(s: string, c: char): (r: Option<nat>)
    ensures r.Some? ==> r.value < |s| && s[r.value] == c && c !in s[..r.value]
    ensures r.None? <==> c !in s
  {
    if s == [] then None
    else if s[0] == c then Some(0)
    else match IndexOfChar(s[1..], c)
      case Some(k) => (assert s[..k + 1] == [s[0]] + s[1..][..k]; Some(k + 1))
      case None => None
  }

  /** The text `replace` inserts for the match of `matched` at `pos` in `s`, when
      the pattern is a string: in the replacement `r`, `$$` becomes `$`, `$&` the
      matched text, `` $` `` the text before the match and `$'` the text after it;
      any other `$` stays as it is (a string pattern has no capture groups). */
  function Substitution(r: string, s: string, pos: nat, matched: string): (t: string)
    requires pos + |matched| <= |s|
    ensures '$' !in r ==> t == r
  {
    if r == [] then []
    else if r[0] == '$' && |r| >= 2 && IsPatternChar(r[1]) then
      PatternText(r[1], s, pos, matched) + Substitution(r[2..], s, pos, matched)
    else [r[0]] + Substitution(r[1..], s, pos, matched)
  }

  /** The characters that may follow `$` in a pattern of a string replacement. */
  predicate IsPatternChar(c: char) {
    c == '$' || c == '&' || c == '`' || c == '\''
  }

  /** What `$c` stands for, for a pattern character `c`. */
  function PatternText(c: char, s: string, pos: nat, matched: string): string
    requires pos + |matched| <= |s|
  {
    if c == '$' then "$" else if c == '&' then matched else if c == '`' then s[..pos] else s[pos + |matched|..]
  }

  /** A `$` pattern at the head of the replacement is expanded by itself. */
  lemma SubstitutionOfPattern(c: char, rest: string, s: string, pos: nat, matched: string)
    requires IsPatternChar(c) && pos + |matched| <= |s|
    ensures Substitution(['$', c] + rest, s, pos, matched)
      == PatternText(c, s, pos, matched) + Substitution(rest, s, pos, matched)
    ensures rest == [] ==> Substitution(['$', c] + rest, s, pos, matched) == PatternText(c, s, pos, matched)
  {
    var r := ['$', c] + rest;
    assert r[0] == '$' && r[1] == c && r[2..] == rest;
    if rest == [] {
      assert PatternText(c, s, pos, matched) + [] == PatternText(c, s, pos, matched);
    }
  }

  /** `` $`$' `` stands for the text around the match, with the match left out. */
  lemma SubstitutionOfSurroundings(s: string, pos: nat, matched: string)
    requires pos + |matched| <= |s|
    ensures Substitution("$`$'", s, pos, matched) == s[..pos] + s[pos + |matched|..]
  {
    assert "$`$'" == ['$', '`'] + "$'";
    assert "$'" == ['$', '\''] + [];
    SubstitutionOfPattern('`', "$'", s, pos, matched);
    SubstitutionOfPattern('\'', [], s, pos, matched);
  }

  /** `s.replace(p, r)` with a string pattern: only the first occurrence is replaced,
      by the substitution of `r` for that match. */
  function ReplaceFirst(s: string, p: string, r: string): (t: string)
    ensures !Contains(s, p) ==> t == s
    ensures Contains(s, p) ==>
      exists i :: OccursAt(s, p, i) && (forall j :: 0 <= j < i ==> !OccursAt(s, p, j))
        && t == s[..i] + Substitution(r, s, i, p) + s[i + |p|..]
  {
    match IndexOf(s, p)
    case None => s
    case Some(i) => s[..i] + Substitution(r, s, i, p) + s[i + |p|..]
  }

  /** When `p` occurs at `i` and its first character does not appear before `i`,
      `replace` rewrites exactly the occurrence at `i`. */
  lemma ReplaceFirstAt(s: string, p: string, r: string, i: nat)
    requires OccursAt(s, p, i) && |p| > 0 && p[0] !in s[..i]
    ensures ReplaceFirst(s, p, r) == s[..i] + Substitution(r, s, i, p) + s[i + |p|..]
  {
    IndexOfAt(s, p, i);
    ReplaceFirstOfIndex(s, p, r, i);
  }

  /** An occurrence whose first character does not appear earlier is the first one. */
  lemma IndexOfAt(s: string, p: string, i: nat)
    requires OccursAt(s, p, i) && |p| > 0 && p[0] !in s[..i]
    ensures IndexOf(s, p) == Some(i)
  {
    assert Contains(s, p);
    var k := IndexOf(s, p).value;
    assert s[k..k + |p|][0] == s[k];
    assert forall j :: 0 <= j < i ==> s[j] != p[0] by {
      forall j | 0 <= j < i ensures s[j] != p[0] {
        assert s[..i][j] == s[j];
      }
    }
  }

  lemma ReplaceFirstOfIndex(s: string, p: string, r: string, k: nat)
    requires IndexOf(s, p) == Some(k)
    ensures ReplaceFirst(s, p, r) == s[..k] + Substitution(r, s, k, p) + s[k + |p|..]
  {
  }

  /** `s.replace(/p/g, r)` for a literal, non-empty pattern: a left-to-right scan
      that replaces every non-overlapping occurrence. */
  function ReplaceAll(s: string, p: string, r: string): string
    requires |p| > 0
    decreases |s|
  {
    if |s| < |p| then s
    else if s[..|p|] == p then r + ReplaceAll(s[|p|..], p, r)
    else [s[0]] + ReplaceAll(s[1..], p, r)
  }

  /** Without any occurrence of `p`, the global replace returns its input. */
  lemma {:induction false} ReplaceAllAbsent(s: string, p: string, r: string)
    requires |p| > 0 && !Contains(s, p)
    ensures ReplaceAll(s, p, r) == s
    decreases |s|
  {
    if |s| >= |p| {
      assert !OccursAt(s, p, 0);
      assert s[..|p|] == s[0..|p|];
      assert !Contains(s[1..], p) by {
        forall j | 0 <= j ensures !OccursAt(s[1..], p, j) {
          OccursAtShift(s, p, j);
        }
      }
      ReplaceAllAbsent(s[1..], p, r);
    }
  }

  /** The global replace only puts in characters of its input or of the replacement. */
  lemma {:induction false} ReplaceAllChars(s: string, p: string, r: string)
    requires |p| > 0
    ensures forall c :: c in ReplaceAll(s, p, r) ==> c in s || c in r
    decreases |s|
  {
    if |s| >= |p| {
      if s[..|p|] == p {
        ReplaceAllChars(s[|p|..], p, r);
        assert forall c :: c in s[|p|..] ==> c in s;
      } else {
        ReplaceAllChars(s[1..], p, r);
        assert forall c :: c in s[1..] ==> c in s;
      }
    }
  }

  /** Text that starts with the pattern starts, once replaced, with the replacement. */
  lemma ReplaceAllStartsWithReplacement(s: string, p: string, r: string)
    requires |p| > 0 && |s| >= |p| && s[..|p|] == p && |r| > 0
    ensures |ReplaceAll(s, p, r)| > 0 && ReplaceAll(s, p, r)[0] in r
  {
    assert ReplaceAll(s, p, r) == r + ReplaceAll(s[|p|..], p, r);
  }

  /** A prefix of the replaced text made of characters the replacement does not
      contain was already a prefix of the input. */
  lemma {:induction false} ReplaceAllPrefix(s: string, p: string, r: string, q: string)
    requires |p| > 0 && |r| > 0
    requires forall k :: 0 <= k < |q| ==> q[k] !in r
    requires |q| <= |ReplaceAll(s, p, r)| && ReplaceAll(s, p, r)[..|q|] == q
    ensures |q| <= |s| && s[..|q|] == q
    decreases |s|
  {
    if q != [] && |s| >= |p| {
      var t := ReplaceAll(s, p, r);
      if s[..|p|] == p {
        ReplaceAllStartsWithReplacement(s, p, r);
      } else {
        var u := ReplaceAll(s[1..], p, r);
        assert t == [s[0]] + u;
        assert u[..|q| - 1] == t[1..|q|] == q[1..];
        ReplaceAllPrefix(s[1..], p, r, q[1..]);
        assert s[..|q|] == [s[0]] + s[1..][..|q| - 1];
      }
    }
  }

  /** An occurrence of the pattern at the start of `[s[0]] + ReplaceAll(s[1..], p, r)`
      was already one at the start of `s`, when the replacement shares no
      character with the pattern. */
  lemma MatchAtHead(s: string, p: string, r: string)
    requires |p| > 0 && |r| > 0
    requires forall k :: 0 <= k < |p| ==> p[k] !in r
    requires |s| >= |p|
    ensures OccursAt([s[0]] + ReplaceAll(s[1..], p, r), p, 0) ==> s[..|p|] == p
  {
    var u := ReplaceAll(s[1..], p, r);
    var t := [s[0]] + u;
    if OccursAt(t, p, 0) {
      assert t[0] == p[0];
      assert u[..|p| - 1] == t[1..|p|];
      ReplaceAllPrefix(s[1..], p, r, p[1..]);
      assert s[..|p|] == [s[0]] + s[1..][..|p| - 1];
    }
  }

  /** When the replacement shares no character with the pattern, no occurrence
      of the pattern is left: `s.replace(/p/g, r)` removes them all. */
  lemma {:induction false} ReplaceAllRemoves(s: string, p: string, r: string)
    requires |p| > 0 && |r| > 0
    requires forall k :: 0 <= k < |p| ==> p[k] !in r
    ensures !Contains(ReplaceAll(s, p, r), p)
    decreases |s|
  {
    var t := ReplaceAll(s, p, r);
    if |s| >= |p| {
      if s[..|p|] == p {
        var u := ReplaceAll(s[|p|..], p, r);
        ReplaceAllRemoves(s[|p|..], p, r);
        assert t == r + u;
        forall i | 0 <= i <= |t| - |p| ensures !OccursAt(t, p, i) {
          if i < |r| {
            assert t[i] == r[i];
          } else {
            assert t[i..i + |p|] == u[i - |r|..i - |r| + |p|];
            assert !OccursAt(u, p, i - |r|);
          }
        }
      } else {
        var u := ReplaceAll(s[1..], p, r);
        ReplaceAllRemoves(s[1..], p, r);
        assert t == [s[0]] + u;
        forall i | 0 <= i <= |t| - |p| ensures !OccursAt(t, p, i) {
          if i == 0 {
            MatchAtHead(s, p, r);
          } else {
            assert t[i..i + |p|] == u[i - 1..i - 1 + |p|];
            assert !OccursAt(u, p, i - 1);
          }
        }
      }
    }
  }

  /** `parts.join([c])`. */
  function Join(parts: seq<string>, c: char): string {
    if |parts| == 0 then ""
    else if |parts| == 1 then parts[0]
    else parts[0] + [c] + Join(parts[1..], c)
  }

  /** `s.split(c)` for a one-character separator: the pieces between occurrences
      of `c`, so that there is always at least one piece. */
  function Split(s: string, c: char): (parts: seq<string>)
    ensures |parts| >= 1
    ensures forall k :: 0 <= k < |parts| ==> c !in parts[k]
    ensures Join(parts, c) == s
    decreases |s|
  {
    match IndexOfChar(s, c)
    case None => [s]
    case Some(i) =>
      var rest := Split(s[i + 1..], c);
      assert s == s[..i] + [c] + s[i + 1..];
      [s[..i]] + rest
  }

  /** Splitting undoes joining, as long as no piece holds the separator. */
  lemma {:induction false} SplitJoin(parts: seq<string>, c: char)
    requires |parts| >= 1
    requires forall k :: 0 <= k < |parts| ==> c !in parts[k]
    ensures Split(Join(parts, c), c) == parts
  {
    if |parts| > 1 {
      var s := Join(parts, c);
      assert s == parts[0] + [c] + Join(parts[1..], c);
      assert s[|parts[0]|] == c;
      assert s[..|parts[0]|] == parts[0];
      assert IndexOfChar(s, c) == Some(|parts[0]|);
      assert s[|parts[0]| + 1..] == Join(parts[1..], c);
      SplitJoin(parts[1..], c);
    } else {
      assert IndexOfChar(parts[0], c).None?;
    }
  }

  /** Two separator-free pieces joined by the separator split back into the two. */
  lemma SplitPair(a: string, b: string, c: char)
    requires c !in a && c !in b
    ensures Split(a + [c] + b, c) == [a, b]
  {
    assert Join([a, b], c) == a + [c] + b;
    SplitJoin([a, b], c);
  }

  /** Three separator-free pieces joined by the separator split back into the three. */
  lemma SplitTriple(a: string, b: string, d: string, c: char)
    requires c !in a && c !in b && c !in d
    ensures Split(a + [c] + b + [c] + d, c) == [a, b, d]
  {
    assert Join([d], c) == d;
    assert Join([b, d], c) == b + [c] + d;
    assert Join([a, b, d], c) == a + [c] + b + [c] + d;
    SplitJoin([a, b, d], c);
  }

  /** The characters `String.prototype.trim` removes, restricted to ASCII:
      space, tab, line feed, vertical tab, form feed and carriage return. */
  predicate IsSpace(c: char) {
    c == ' ' || c == '\t' || c == '\n' || c == '\U{B}' || c == '\U{C}' || c == '\r'
  }

  function TrimStart(s: string): (r: string)
    ensures |r| <= |s| && r == s[|s| - |r|..]
    ensures r != [] ==> !IsSpace(r[0])
    ensures forall k :: 0 <= k < |s| - |r| ==> IsSpace(s[k])
  {
    if s != [] && IsSpace(s[0]) then
      var r := TrimStart(s[1..]);
      assert s[1..][|s| - 1 - |r|..] == s[|s| - |r|..];
      assert forall k :: 1 <= k < |s| - |r| ==> s[k] == s[1..][k - 1];
      r
    else s
  }

  function TrimEnd(s: string): (r: string)
    ensures |r| <= |s| && r == s[..|r|]
    ensures r != [] ==> !IsSpace(r[|r| - 1])
    ensures forall k :: |r| <= k < |s| ==> IsSpace(s[k])
  {
    if s != [] && IsSpace(s[|s| - 1]) then
      var r := TrimEnd(s[..|s| - 1]);
      assert s[..|s| - 1][..|r|] == s[..|r|];
      assert forall k :: |r| <= k < |s| - 1 ==> s[k] == s[..|s| - 1][k];
      r
    else s
  }

  /** `s.trim()`. */
  function Trim(s: string): string {
    TrimEnd(TrimStart(s))
  }

  /** A trimmed string neither starts nor ends with white space. */
  lemma TrimEnds(s: string)
    ensures var t := Trim(s); t != [] ==> !IsSpace(t[0]) && !IsSpace(t[|t| - 1])
  {
    var a := TrimStart(s);
    var t := TrimEnd(a);
    if t != [] {
      assert t[0] == a[0];
    }
  }

  /** A string that neither starts nor ends with white space is its own trim. */
  lemma TrimNoSpace(s: string)
    requires s != [] ==> !IsSpace(s[0]) && !IsSpace(s[|s| - 1])
    ensures Trim(s) == s
  {
  }

  /** Trimming is idempotent. */
  lemma TrimIdempotent(s: string)
    ensures Trim(Trim(s)) == Trim(s)
  {
    TrimEnds(s);
    TrimNoSpace(Trim(s));
  }

  /** ASCII `toLowerCase` of one character. */
  function LowerChar(c: char): char {
    if 'A' <= c <= 'Z' then (c as int + 32) as char else c
  }

  /** ASCII `s.toLowerCase()`. */
  function Lower(s: string): (r: string)
    ensures |r| == |s|
  {
    seq(|s|, i requires 0 <= i < |s| => LowerChar(s[i]))
  }

  /** Case-insensitive substring test: both sides folded to lower case. */
  predicate ContainsIgnoreCase(s: string, p: string) {
    Contains(Lower(s), Lower(p))
  }

  /** The decimal digits of a natural number, most significant first. */
  function NatDigits(n: nat): (r: string)
    ensures |r| >= 1
    ensures forall k :: 0 <= k < |r| ==> '0' <= r[k] <= '9'
  {
    if n < 10 then [('0' as int + n) as char]
    else NatDigits(n / 10) + [('0' as int + n % 10) as char]
  }

  /** The value of a string of decimal digits. */
  function DigitsValue(s: string): int
  {
    if s == [] then 0 else DigitsValue(s[..|s| - 1]) * 10 + (s[|s| - 1] as int - '0' as int)
  }

  /** `String(n)` for an integer: an optional minus sign and its decimal digits. */
  function Decimal(n: int): string {
    if n < 0 then "-" + NatDigits(-n) else NatDigits(n)
  }

  /** Reading the digits of `String(n)` back gives `n`: the rendering loses nothing. */
  lemma {:induction false} NatDigitsValue(n: nat)
    ensures DigitsValue(NatDigits(n)) == n
  {
    if n >= 10 {
      NatDigitsValue(n / 10);
      var d := NatDigits(n);
      assert d[..|d| - 1] == NatDigits(n / 10);
    }
  }

  /** `String(n)` holds no character other than digits and a leading minus sign. */
  lemma DecimalChars(n: int)
    ensures forall k :: 0 <= k < |Decimal(n)| ==>
      ('0' <= Decimal(n)[k] <= '9') || (k == 0 && n < 0 && Decimal(n)[k] == '-')
  {
  }

  lemma NatDigitsInjective(a: nat, b: nat)
    requires NatDigits(a) == NatDigits(b)
    ensures a == b
  {
    NatDigitsValue(a);
    NatDigitsValue(b);
  }

  /** `String(n)` starts with a minus sign exactly when `n` is negative. */
  lemma DecimalSign(n: int)
    ensures |Decimal(n)| >= 1 && (Decimal(n)[0] == '-' <==> n < 0)
  {
    if n >= 0 {
      assert '0' <= NatDigits(n)[0] <= '9';
    }
  }

  /** Different integers render differently. */
  lemma DecimalInjective(m: int, n: int)
    requires Decimal(m) == Decimal(n)
    ensures m == n
  {
    DecimalSign(m);
    DecimalSign(n);
    if m < 0 {
      assert Decimal(m)[1..] == NatDigits(-m) && Decimal(n)[1..] == NatDigits(-n);
      NatDigitsInjective(-m, -n);
    } else {
      NatDigitsInjective(m, n);
    }
  }

  /** A JavaScript number as the model needs it: an integer or NaN. */
  datatype JsNumber = Finite(n: int) | NaN

  predicate IsDigit(c: char) {
    '0' <= c <= '9'
  }

  /** The longest prefix of decimal digits. */
  function LeadingDigits(s: string): (d: string)
    ensures |d| <= |s| && d == s[..|d|]
    ensures forall k :: 0 <= k < |d| ==> IsDigit(d[k])
    ensures |d| < |s| ==> !IsDigit(s[|d|])
  {
    if s != [] && IsDigit(s[0]) then [s[0]] + LeadingDigits(s[1..]) else []
  }

  predicate IsHexDigit(c: char) {
    IsDigit(c) || 'a' <= c <= 'f' || 'A' <= c <= 'F'
  }

  function HexDigitValue(c: char): int {
    if IsDigit(c) then c as int - '0' as int
    else if 'a' <= c <= 'f' then c as int - 'a' as int + 10
    else c as int - 'A' as int + 10
  }

  /** The longest prefix of hexadecimal digits. */
  function LeadingHex(s: string): (d: string)
    ensures |d| <= |s| && d == s[..|d|]
    ensures forall k :: 0 <= k < |d| ==> IsHexDigit(d[k])
  {
    if s != [] && IsHexDigit(s[0]) then [s[0]] + LeadingHex(s[1..]) else []
  }

  /** The value of a string of hexadecimal digits. */
  function HexValue(s: string): int {
    if s == [] then 0 else HexValue(s[..|s| - 1]) * 16 + HexDigitValue(s[|s| - 1])
  }

  /** The value of the digits after the sign: hexadecimal after "0x" or "0X",
      decimal otherwise; `None` when no digit follows. */
  function Magnitude(rest: string): Option<int> {
    if |rest| >= 2 && rest[0] == '0' && (rest[1] == 'x' || rest[1] == 'X') then
      var h := LeadingHex(rest[2..]);
      if h == [] then None else Some(HexValue(h))
    else
      var d := LeadingDigits(rest);
      if d == [] then None else Some(DigitsValue(d))
  }

  /** `parseInt(s)` without a radix: leading white space is skipped, one sign is
      read, a "0x" or "0X" prefix switches to hexadecimal, and the longest run of
      digits that follows is the value; without any digit the result is NaN. */
  function ParseInt(s: string): JsNumber {
    var t := TrimStart(s);
    var negative := t != [] && t[0] == '-';
    var rest := if t != [] && (t[0] == '-' || t[0] == '+') then t[1..] else t;
    match Magnitude(rest)
    case None => NaN
    case Some(m) => Finite(if negative then -m else m)
  }

  /** The digit run of a string of digits followed by anything else is the string. */
  lemma {:induction false} LeadingDigitsOf(d: string, rest: string)
    requires forall k :: 0 <= k < |d| ==> IsDigit(d[k])
    requires rest == [] || !IsDigit(rest[0])
    ensures LeadingDigits(d + rest) == d
  {
    if d == [] {
      assert d + rest == rest;
    } else {
      assert (d + rest)[0] == d[0] && (d + rest)[1..] == d[1..] + rest;
      LeadingDigitsOf(d[1..], rest);
      assert d == [d[0]] + d[1..];
    }
  }

  /** Decimal digits followed by text that starts with neither a digit nor an
      'x' are read as their decimal value. */
  lemma MagnitudeOfDigits(d: string, rest: string)
    requires |d| >= 1 && forall k :: 0 <= k < |d| ==> IsDigit(d[k])
    requires rest == [] || (!IsDigit(rest[0]) && rest[0] != 'x' && rest[0] != 'X')
    ensures Magnitude(d + rest) == Some(DigitsValue(d))
  {
    var body := d + rest;
    if |body| >= 2 {
      if |d| >= 2 {
        assert body[1] == d[1];
      } else {
        assert body[1] == rest[0];
      }
    }
    LeadingDigitsOf(d, rest);
  }

  /** Text that starts with neither white space nor a sign is read unsigned. */
  lemma ParseIntUnsigned(t: string)
    requires t != [] && !IsSpace(t[0]) && t[0] != '-' && t[0] != '+'
    requires Magnitude(t).Some?
    ensures ParseInt(t) == Finite(Magnitude(t).value)
  {
    assert TrimStart(t) == t;
  }

  /** Text that starts with a minus sign is read as the negated magnitude of the rest. */
  lemma ParseIntNegative(t: string)
    requires t != [] && t[0] == '-'
    requires Magnitude(t[1..]).Some?
    ensures ParseInt(t) == Finite(-Magnitude(t[1..]).value)
  {
    assert TrimStart(t) == t;
  }

  /** `parseInt` reads back `String(n)`, also when text that starts with neither
      a digit nor an 'x' follows it. */
  lemma ParseIntDecimal(n: int, rest: string)
    requires rest == [] || (!IsDigit(rest[0]) && rest[0] != 'x' && rest[0] != 'X')
    ensures ParseInt(Decimal(n) + rest) == Finite(n)
  {
    var m: nat := if n < 0 then -n else n;
    NatDigitsValue(m);
    MagnitudeOfDigits(NatDigits(m), rest);
    if n < 0 {
      NegativeDecimalText(n, rest);
    } else {
      assert Decimal(n) + rest == NatDigits(m) + rest;
      ParseIntUnsigned(NatDigits(m) + rest);
    }
  }

  lemma NegativeDecimalText(n: int, rest: string)
    requires n < 0
    requires Magnitude(NatDigits(-n) + rest) == Some(-n)
    ensures ParseInt(Decimal(n) + rest) == Finite(n)
  {
    var d := NatDigits(-n);
    assert Decimal(n) == ['-'] + d;
    var s := Decimal(n) + rest;
    assert s == ['-'] + (d + rest);
    assert s[0] == '-' && s[1..] == d + rest;
    ParseIntNegative(s);
  }

  /** The property names every plain object `{}` inherits from `Object.prototype`.
      Each reads as a function (or, for `__proto__`, as the prototype object), so
      `obj[name]` is truthy on an object that has no own property of that name. */
  const ObjectPrototypeNames: set<string> := {
    "constructor", "__proto__", "__defineGetter__", "__defineSetter__",
    "__lookupGetter__", "__lookupSetter__", "hasOwnProperty", "isPrototypeOf",
    "propertyIsEnumerable", "toLocaleString", "toString", "valueOf"
  }

  /** The count line of the catalogue pages: "<n> <noun>s Found", without the
      plural "s" exactly when one item is shown. For a noun that does not end
      in 's' the line ends in "s Found" exactly when the count is not one. */
  function CountLabel(n: int, noun: string): (l: string)
    ensures |l| >= |Decimal(n)| + 7 && l[..|Decimal(n)|] == Decimal(n)
    ensures noun != [] && noun[|noun| - 1] != 's' ==> (l[|l| - 7..] == "s Found" <==> n != 1)
  {
    var head := Decimal(n) + " " + noun;
    var suffix := if n != 1 then "s Found" else " Found";
    var l := head + suffix;
    assert l[..|Decimal(n)|] == head[..|Decimal(n)|] == Decimal(n);
    assert n != 1 ==> l[|l| - 7..] == suffix;
    assert n == 1 && noun != [] ==> l[|l| - 7] == head[|head| - 1] == noun[|noun| - 1];
    l
  }
}
