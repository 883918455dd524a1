/**
 * The pure string logic of `include/network.php`: the RFC 2047 encoded-word
 * builder used for mail headers, the allow-lists for registration e-mail
 * domains and for URLs, and the default status message of an HTTP exit.
 */
module Network {
  import opened Wrappers
  import opened PhpString
  import Base64

  // ---------------------------------------------------------------- status

  /**
   * The message `http_status_exit` sends: an empty (falsy) message becomes
   * `Error` for codes from 400 up and `OK` for 2xx codes.
   */
  function StatusMessage(code: int, msg: string): (m: string)
    ensures Truthy(msg) ==> m == msg
    ensures !Truthy(msg) && code >= 400 ==> m == "Error"
    ensures !Truthy(msg) && 200 <= code < 300 ==> m == "OK"
    ensures !Truthy(msg) && !(code >= 400) && !(200 <= code < 300) ==> m == msg
    ensures Truthy(msg) || (code >= 400 || 200 <= code < 300) ==> Truthy(m)
  {
    var m := if code >= 400 then (if Truthy(msg) then msg else "Error") else msg;
    if 200 <= code < 300 then (if Truthy(m) then m else "OK") else m
  }

  // ---------------------------------------------------------- RFC 2047 words

  /** A byte that forces encoding: NUL or anything above 128 (128 itself does not). */
  predicate NeedsConversion(c: char) {
    Base64.ByteOf(c) == 0 || Base64.ByteOf(c) > 128
  }

  /** Some byte of `s` forces encoding. */
  predicate NeedsEncoding(s: string) {
    exists j :: 0 <= j < |s| && NeedsConversion(s[j])
  }

  /** The opening delimiter `=?charset?B?` of an encoded word (section 2 of RFC 2047). */
  function Start(charset: string): string {
    "=?" + charset + "?B?"
  }

  /** The closing delimiter of an encoded word. */
  const End: string := "?="

  /** What goes between two encoded words: close, CRLF, a folding space, open. */
  function Spacer(charset: string): string {
    End + "\r\n " + Start(charset)
  }

  /** PHP's `%`, which truncates toward zero (Dafny's `%` is Euclidean). */
  function PhpRem(a: int, b: int): int
    requires b > 0
  {
    if a >= 0 then a % b else -((-a) % b)
  }

  /** The number of base64 characters per encoded word: 75 minus both delimiters, down to a multiple of 4. */
  function ChunkLength(charset: string): (n: int)
    ensures n % 4 == 0
    ensures n >= 1 ==> |Start(charset)| + n + |End| <= 75
    ensures |charset| <= 62 ==> n >= 4
  {
    var length := 75 - |Start(charset)| - |End|;
    assert |Start(charset)| == |charset| + 5 && |End| == 2;
    DownToMultipleOfFour(length);
    length - PhpRem(length, 4)
  }

  /** Subtracting PHP's `$a % 4` rounds toward zero to a multiple of 4. */
  lemma DownToMultipleOfFour(a: int)
    ensures (a - PhpRem(a, 4)) % 4 == 0
    ensures a >= 0 ==> a - 3 <= a - PhpRem(a, 4) <= a
    ensures a < 0 ==> a - PhpRem(a, 4) <= 0
  {
    if a >= 0 {
      assert a - PhpRem(a, 4) == 4 * (a / 4);
    } else {
      assert a - PhpRem(a, 4) == -4 * ((-a) / 4);
    }
  }

  lemma Utf8ChunkLength()
    ensures ChunkLength("UTF-8") == 60
  {
  }

  /** `chunk_split($body, $n, $end)`: every run of `n` characters, and a shorter last run, is followed by `end`. */
  function ChunkSplit(body: string, n: int, end: string): string
    requires n >= 1
    decreases |body|
  {
    if |body| <= n then body + end
    else body[..n] + end + ChunkSplit(body[n..], n, end)
  }

  /** `preg_replace('/' . preg_quote($suffix) . '$/', '', $s)` when `$s` does not end in a newline: drops one trailing `suffix`. */
  function RemoveTrailing(s: string, suffix: string): (r: string)
    ensures |s| >= |suffix| && s[|s| - |suffix|..] == suffix ==> s == r + suffix
    ensures !(|s| >= |suffix| && s[|s| - |suffix|..] == suffix) ==> r == s
  {
    if |s| >= |suffix| && s[|s| - |suffix|..] == suffix then s[..|s| - |suffix|] else s
  }

  /** The runs of `n` characters `body` is cut into; the last one may be shorter. */
  function Chunks(body: string, n: int): (cs: seq<string>)
    requires n >= 1
    ensures |cs| >= 1
    decreases |body|
  {
    if |body| <= n then [body] else [body[..n]] + Chunks(body[n..], n)
  }

  /** The parts joined with `sep` between each two. */
  function JoinWith(sep: string, parts: seq<string>): string {
    if parts == [] then ""
    else if |parts| == 1 then parts[0]
    else parts[0] + sep + JoinWith(sep, parts[1..])
  }

  /** All parts one after another. */
  function Concat(parts: seq<string>): string {
    if parts == [] then "" else parts[0] + Concat(parts[1..])
  }

  /**
   * The reference form of the encoded header: the base64 text cut into
   * chunks of `ChunkLength(charset)` characters, each wrapped as one encoded
   * word, the words separated by `Spacer(charset)`. If no chunk length is left
   * (a charset name longer than 66 bytes), `chunk_split` fails and only the
   * two delimiters remain.
   */
  function EncodedWords(charset: string, b64: string): string {
    var n := ChunkLength(charset);
    if n < 1 then Start(charset) + End
    else Start(charset) + JoinWith(Spacer(charset), Chunks(b64, n)) + End
  }

  /** `email_header_encode($in, $charset)`. */
  method EmailHeaderEncode(inStr: string, charset: string) returns (out: string)
    ensures !NeedsEncoding(inStr) ==> out == inStr
    ensures NeedsEncoding(inStr) && !Truthy(charset) ==> out == inStr
    ensures NeedsEncoding(inStr) && Truthy(charset) ==> out == EncodedWords(charset, Base64.Encode(inStr))
  {
    out := inStr;
    var needToConvert := false;
    for x := 0 to |inStr|
      invariant needToConvert <==> exists j :: 0 <= j < x && NeedsConversion(inStr[j])
    {
      if NeedsConversion(inStr[x]) {
        needToConvert := true;
      }
    }
    if !needToConvert {
      return inStr;
    }
    if Truthy(out) && Truthy(charset) {
      var end := End;
      var start := Start(charset);
      var spacer := end + "\r\n " + start;
      var length := 75 - |start| - |end|;
      length := length - PhpRem(length, 4);
      assert length == ChunkLength(charset);
      out := Base64.Encode(out);
      if length < 1 {
        out := "";
      } else {
        ChunkSplitJoins(out, length, spacer);
        out := ChunkSplit(out, length, spacer);
        out := RemoveTrailing(out, spacer);
        assert out == JoinWith(Spacer(charset), Chunks(Base64.Encode(inStr), ChunkLength(charset)));
      }
      out := start + out + end;
    }
  }

  /** `chunk_split` is the joined chunks with one more separator at the end. */
  lemma {:induction false} ChunkSplitJoins(body: string, n: int, sep: string)
    requires n >= 1
    ensures ChunkSplit(body, n, sep) == JoinWith(sep, Chunks(body, n)) + sep
    ensures RemoveTrailing(ChunkSplit(body, n, sep), sep) == JoinWith(sep, Chunks(body, n))
    decreases |body|
  {
    if |body| > n {
      ChunkSplitJoins(body[n..], n, sep);
      var rest := Chunks(body[n..], n);
      assert Chunks(body, n) == [body[..n]] + rest;
      assert JoinWith(sep, Chunks(body, n)) == body[..n] + sep + JoinWith(sep, rest);
    }
    var s := ChunkSplit(body, n, sep);
    var j := JoinWith(sep, Chunks(body, n));
    assert s[|s| - |sep|..] == sep;
    assert s[..|s| - |sep|] == j;
  }

  /** Every chunk but the last is exactly `n` long; the last one is at most `n`, and at least 1 unless the text is empty. */
  lemma {:induction false} ChunkSizes(body: string, n: int)
    requires n >= 1
    ensures forall i :: 0 <= i < |Chunks(body, n)| - 1 ==> |Chunks(body, n)[i]| == n
    ensures |Chunks(body, n)[|Chunks(body, n)| - 1]| <= n
    ensures body != [] ==> |Chunks(body, n)[|Chunks(body, n)| - 1]| >= 1
    decreases |body|
  {
    if |body| > n {
      ChunkSizes(body[n..], n);
    }
  }

  /** The chunks, put back together, are the text. */
  lemma {:induction false} ChunksConcat(body: string, n: int)
    requires n >= 1
    ensures Concat(Chunks(body, n)) == body
    decreases |body|
  {
    if |body| > n {
      ChunksConcat(body[n..], n);
      assert body == body[..n] + body[n..];
    } else {
      assert Concat([body]) == body + Concat([]);
    }
  }

  /** A chunk of the text holds only characters of the text. */
  lemma {:induction false} ChunkChars(body: string, n: int, i: nat, k: nat)
    requires n >= 1 && i < |Chunks(body, n)| && k < |Chunks(body, n)[i]|
    ensures Chunks(body, n)[i][k] in body
    decreases |body|
  {
    if |body| > n && i > 0 {
      ChunkChars(body[n..], n, i - 1, k);
    } else {
      assert Chunks(body, n)[i][k] == body[k];
    }
  }

  /**
   * The encoded header is a run of encoded words of at most 75 characters,
   * each holding a full number of base64 quanta except the last, that
   * together carry exactly `base64_encode($in)`, so decoding them restores the
   * input; no word is empty and no chunk contains `?`.
   */
  lemma {:induction false} EncodedHeaderShape(inStr: string, charset: string)
    requires NeedsEncoding(inStr) && ChunkLength(charset) >= 1
    ensures var n, cs := ChunkLength(charset), Chunks(Base64.Encode(inStr), ChunkLength(charset));
      && EncodedWords(charset, Base64.Encode(inStr)) == Start(charset) + JoinWith(Spacer(charset), cs) + End
      && (forall i :: 0 <= i < |cs| ==> 1 <= |cs[i]| && |Start(charset) + cs[i] + End| <= 75)
      && (forall i :: 0 <= i < |cs| - 1 ==> |cs[i]| == n && |cs[i]| % 4 == 0)
      && (forall i, k :: 0 <= i < |cs| && 0 <= k < |cs[i]| ==> cs[i][k] != '?')
      && Concat(cs) == Base64.Encode(inStr)
      && (Base64.IsBytes(inStr) ==> Base64.Decode(Concat(cs)) == Some(inStr))
  {
    var n := ChunkLength(charset);
    var b := Base64.Encode(inStr);
    var cs := Chunks(b, n);
    assert |inStr| >= 1;
    assert |b| >= 4;
    ChunkSizes(b, n);
    ChunksConcat(b, n);
    assert forall i :: 0 <= i < |cs| ==> 1 <= |cs[i]| && |Start(charset) + cs[i] + End| <= 75 by {
      forall i | 0 <= i < |cs| ensures 1 <= |cs[i]| && |Start(charset) + cs[i] + End| <= 75 {
        assert |cs[i]| <= n;
      }
    }
    assert forall i, k :: 0 <= i < |cs| && 0 <= k < |cs[i]| ==> cs[i][k] != '?' by {
      Base64.EncodeAlphabet(inStr);
      forall i, k | 0 <= i < |cs| && 0 <= k < |cs[i]| ensures cs[i][k] != '?' {
        ChunkChars(b, n, i, k);
        var j :| 0 <= j < |b| && b[j] == cs[i][k];
        assert b[j] == '=' || Base64.DigitValue(b[j]).Some?;
      }
    }
    if Base64.IsBytes(inStr) {
      Base64.DecodeEncode(inStr);
    }
  }

  // ------------------------------------------------------------ allow-lists

  /**
   * How the scan of a bracket expression `[...]` ends for one subject
   * character: it matched and the pattern resumes at `rest` (just past the
   * closing `]`), it closed without a match, it ran off the end of the pattern
   * before any `]` (the `[` is then an ordinary character), or the pattern is
   * ill-formed at that point and the whole match fails.
   */
  datatype BracketScan = Hit(rest: nat) | Miss(rest: nat) | Unterminated | Lose

  /**
   * After a match inside a bracket expression, the scan skips to the closing
   * `]`, stepping over escaped characters; reaching the end of the pattern
   * first makes the match fail.
   */
  function SkipBracket(p: string, k: nat): (r: BracketScan)
    requires k <= |p|
    ensures r.Hit? || r == Lose
    ensures r.Hit? ==> k < r.rest <= |p| && p[r.rest - 1] == ']'
    decreases |p| - k
  {
    if k == |p| then Lose
    else if p[k] == '\\' then (if k + 1 == |p| then Lose else SkipBracket(p, k + 2))
    else if p[k] == ']' then Hit(k + 1)
    else SkipBracket(p, k + 1)
  }

  /**
   * The scan of a bracket expression of `p` from index `i` for the subject
   * character `x`. One element is a character, possibly escaped with `\`,
   * optionally followed by `-` and a range end, unless the `-` is followed
   * by `]`. The element at the start is taken as it is, so a leading `]` is
   * literal; every later `]` closes the expression. Ranges compare code
   * points, which is the C locale's order.
   */
  function ScanBracket(p: string, i: nat, x: char): (r: BracketScan)
    requires i <= |p|
    ensures (r.Hit? || r.Miss?) ==> i < r.rest <= |p| && p[r.rest - 1] == ']'
    decreases |p| - i
  {
    if i == |p| then Unterminated
    else if p[i] == '\\' && i + 1 == |p| then Lose
    else
      var c := if p[i] == '\\' then p[i + 1] else p[i];
      var j := if p[i] == '\\' then i + 2 else i + 1;
      var isRange := j + 1 < |p| && p[j] == '-' && p[j + 1] != ']';
      if !isRange && c == x then SkipBracket(p, j)
      else if j < |p| && p[j] == '-' && (j + 1 == |p| || p[j + 1] != ']') then
        if j + 1 == |p| || (p[j + 1] == '\\' && j + 2 == |p|) then Lose
        else
          var hi := if p[j + 1] == '\\' then p[j + 2] else p[j + 1];
          var k := if p[j + 1] == '\\' then j + 3 else j + 2;
          if c <= x <= hi then SkipBracket(p, k)
          else if k < |p| && p[k] == ']' then Miss(k + 1)
          else ScanBracket(p, k, x)
      else if j < |p| && p[j] == ']' then Miss(j + 1)
      else ScanBracket(p, j, x)
  }

  /**
   * `fnmatch($pattern, $s)` without flags, as the C library does it:
   * - `*` matches any run of characters and `?` any one character;
   * - `\` makes the next character literal, and a trailing `\` never matches;
   * - `[...]` matches one character from a set, and `[!...]` or `[^...]`
   *   matches one character not in it; `a-z` inside the brackets is a range;
   * - every other character matches itself.
   * The subject cannot be longer than the pattern unless the pattern holds a `*`.
   */
  function Fnmatch(pattern: string, s: string): (r: bool)
    ensures r && '*' !in pattern ==> |s| <= |pattern|
    decreases |pattern| + |s|
  {
    if pattern == [] then s == []
    else if pattern[0] == '*' then Fnmatch(pattern[1..], s) || (s != [] && Fnmatch(pattern, s[1..]))
    else if s == [] then false
    else if pattern[0] == '?' then Fnmatch(pattern[1..], s[1..])
    else if pattern[0] == '\\' then |pattern| >= 2 && pattern[1] == s[0] && Fnmatch(pattern[2..], s[1..])
    else if pattern[0] == '[' then
      var neg := |pattern| >= 2 && (pattern[1] == '!' || pattern[1] == '^');
      match ScanBracket(pattern, if neg then 2 else 1, s[0])
      case Hit(e) => !neg && Fnmatch(pattern[e..], s[1..])
      case Miss(e) => neg && Fnmatch(pattern[e..], s[1..])
      case Unterminated => s[0] == '[' && Fnmatch(pattern[1..], s[1..])
      case Lose => false
    else pattern[0] == s[0] && Fnmatch(pattern[1..], s[1..])
  }

  /** A pattern without any of `*`, `?`, `[` and `\` matches exactly itself. */
  lemma {:induction false} FnmatchLiteral(pattern: string, s: string)
    requires '*' !in pattern && '?' !in pattern && '[' !in pattern && '\\' !in pattern
    ensures Fnmatch(pattern, s) <==> pattern == s
    decreases |pattern| + |s|
  {
    if pattern != [] && s != [] {
      assert pattern[0] in pattern;
      assert pattern[1..] != s[1..] ==> pattern != s;
      assert pattern[0] == s[0] && pattern[1..] == s[1..] ==> pattern == s;
      forall c | c in pattern[1..] ensures c in pattern { }
      FnmatchLiteral(pattern[1..], s[1..]);
    } else if pattern != [] {
      assert pattern[0] in pattern;
    }
  }

  /** A lone `*` matches everything. */
  lemma {:induction false} FnmatchStar(s: string)
    ensures Fnmatch("*", s)
    decreases |s|
  {
    assert "*"[1..] == "";
    if s != [] {
      FnmatchStar(s[1..]);
    }
  }

  /** `*.` followed by a domain matches every strict subdomain of it. */
  lemma {:induction false} FnmatchStarSuffix(prefix: string, suffix: string)
    requires '*' !in suffix && '?' !in suffix && '[' !in suffix && '\\' !in suffix
    ensures Fnmatch("*" + suffix, prefix + suffix)
    decreases |prefix|
  {
    var p := "*" + suffix;
    assert p[1..] == suffix;
    if prefix == [] {
      FnmatchLiteral(suffix, suffix);
      assert prefix + suffix == suffix;
    } else {
      FnmatchStarSuffix(prefix[1..], suffix);
      assert (prefix + suffix)[1..] == prefix[1..] + suffix;
    }
  }

  /** A character that is an ordinary member of a bracket expression. */
  predicate SetMember(c: char) {
    c != ']' && c != '-' && c != '\\'
  }

  /** Skipping to the closing `]` over ordinary characters finds that `]`. */
  lemma {:induction false} SkipPlain(p: string, k: nat, j: nat)
    requires k <= j < |p| && p[j] == ']'
    requires forall m :: k <= m < j ==> SetMember(p[m])
    ensures SkipBracket(p, k) == Hit(j + 1)
    decreases j - k
  {
    if k < j {
      SkipPlain(p, k + 1, j);
    }
  }

  /** Scanning ordinary set members up to the closing `]` hits exactly when `x` is one of them. */
  lemma {:induction false} ScanPlain(p: string, i: nat, j: nat, x: char)
    requires i < j < |p| && p[j] == ']'
    requires forall m :: i <= m < j ==> SetMember(p[m])
    ensures ScanBracket(p, i, x) == if x in p[i..j] then Hit(j + 1) else Miss(j + 1)
    decreases j - i
  {
    assert p[i..j] == [p[i]] + p[i + 1..j];
    if p[i] == x {
      SkipPlain(p, i + 1, j);
    } else if i + 1 < j {
      ScanPlain(p, i + 1, j, x);
    }
  }

  /** `[set]` matches one character of the set: `[ab].com` accepts `a.com` and `b.com`. */
  lemma FnmatchBracketSet(members: string, x: char, rest: string, t: string)
    requires |members| >= 1 && members[0] != '!' && members[0] != '^'
    requires forall m :: 0 <= m < |members| ==> SetMember(members[m])
    ensures Fnmatch("[" + members + "]" + rest, [x] + t) <==> x in members && Fnmatch(rest, t)
  {
    var p := "[" + members + "]" + rest;
    assert p[1..|members| + 1] == members;
    ScanPlain(p, 1, |members| + 1, x);
    assert p[|members| + 2..] == rest;
    assert ([x] + t)[1..] == t;
  }

  /** `[!set]` matches one character outside the set. */
  lemma FnmatchNegatedSet(members: string, x: char, rest: string, t: string)
    requires |members| >= 1
    requires forall m :: 0 <= m < |members| ==> SetMember(members[m])
    ensures Fnmatch("[!" + members + "]" + rest, [x] + t) <==> x !in members && Fnmatch(rest, t)
  {
    var p := "[!" + members + "]" + rest;
    assert p[2..|members| + 2] == members;
    ScanPlain(p, 2, |members| + 2, x);
    assert p[|members| + 3..] == rest;
    assert ([x] + t)[1..] == t;
  }

  /** `[lo-hi]` matches one character between the two ends. */
  lemma FnmatchRange(lo: char, hi: char, x: char, rest: string, t: string)
    requires lo != '!' && lo != '^' && lo != '\\'
    requires hi != ']' && hi != '\\'
    ensures Fnmatch("[" + [lo, '-', hi] + "]" + rest, [x] + t) <==> lo <= x <= hi && Fnmatch(rest, t)
  {
    var p := "[" + [lo, '-', hi] + "]" + rest;
    assert p[1] == lo && p[2] == '-' && p[3] == hi && p[4] == ']';
    assert SkipBracket(p, 4) == Hit(5);
    assert p[5..] == rest;
    assert ([x] + t)[1..] == t;
  }

  /** An escaped `*` is an ordinary character: `\*.com` accepts only `*.com` itself. */
  lemma FnmatchEscapedStar(suffix: string, s: string)
    requires '*' !in suffix && '?' !in suffix && '[' !in suffix && '\\' !in suffix
    ensures Fnmatch("\\*" + suffix, s) <==> s == "*" + suffix
  {
    var p := "\\*" + suffix;
    assert p[2..] == suffix;
    if s != [] {
      FnmatchLiteral(suffix, s[1..]);
      assert s == [s[0]] + s[1..];
    }
  }

  /** One allow-list entry, trimmed and lowercased, accepts `subject` by wildcard or by equality. */
  predicate EntryAllows(entry: string, subject: string, hasFnmatch: bool) {
    var pat := ToLower(Trim(entry, Whitespace));
    (hasFnmatch && Fnmatch(pat, subject)) || pat == subject
  }

  /** Some comma-separated entry of the configured list accepts `subject`. */
  predicate ListAllows(allowed: string, subject: string, hasFnmatch: bool) {
    var entries := Explode(',', allowed);
    exists i :: 0 <= i < |entries| && EntryAllows(entries[i], subject, hasFnmatch)
  }

  /** The `foreach` over `explode(',', $allowed)` with its `$found` flag and `break`. */
  method MatchAllowList(allowed: string, subject: string, hasFnmatch: bool) returns (found: bool)
    ensures found <==> ListAllows(allowed, subject, hasFnmatch)
  {
    var entries := Explode(',', allowed);
    found := false;
    var i := 0;
    while i < |entries|
      invariant 0 <= i <= |entries|
      invariant !found
      invariant forall j :: 0 <= j < i ==> !EntryAllows(entries[j], subject, hasFnmatch)
    {
      if EntryAllows(entries[i], subject, hasFnmatch) {
        found := true;
        return;
      }
      i := i + 1;
    }
  }

  /** The lowercased text after the first `@`; without `@`, `strpos` is false and the first character is dropped. */
  function EmailDomain(email: string): (d: string)
    ensures |d| <= |email|
  {
    var at := match StrPos(email, "@") case Some(i) => i case None => 0;
    ToLower(Substr(email, at + 1))
  }

  /** Without `@`, the "domain" is the address minus its first character. */
  lemma EmailDomainWithoutAt(email: string)
    requires '@' !in email && |email| >= 1
    ensures EmailDomain(email) == ToLower(email[1..])
  {
    StrPosChar(email, '@');
  }

  /** With `@` at index `i` (its first occurrence), the domain is the lowercased rest. */
  lemma EmailDomainAt(local: string, host: string)
    requires '@' !in local
    ensures EmailDomain(local + "@" + host) == ToLower(host)
  {
    var e := local + "@" + host;
    StrPosChar(e, '@');
    assert e[|local|] == '@';
    assert forall k :: 0 <= k < |local| ==> e[k] == local[k];
    assert e[|local| + 1..] == host;
  }

  /**
   * `allowed_email($email)` with the configured `system.allowed_email` list
   * passed in: an empty domain is refused, an unset list allows everything,
   * otherwise some entry must accept the domain.
   */
  method AllowedEmail(email: string, allowedEmail: string, hasFnmatch: bool) returns (ok: bool)
    ensures var domain := EmailDomain(email);
      ok <==> Truthy(domain) && (!Truthy(allowedEmail) || ListAllows(allowedEmail, domain, hasFnmatch))
  {
    var domain := EmailDomain(email);
    if !Truthy(domain) {
      return false;
    }
    if !Truthy(allowedEmail) {
      return true;
    }
    ok := MatchAllowList(allowedEmail, domain, hasFnmatch);
  }

  /** What `parse_url` returns for a URL it can parse: only the host matters here. */
  datatype UrlParts = UrlParts(host: Option<string>)

  /**
   * `allowed_url($url)` with `parse_url`'s result, the `system.allowed_sites`
   * list and the server name passed in: an unparsable URL is refused, an unset
   * list allows everything, our own host is always allowed, otherwise some
   * entry must accept the lowercased host.
   */
  method AllowedUrl(parsed: Option<UrlParts>, allowedSites: string, serverName: string, hasFnmatch: bool)
    returns (ok: bool)
    ensures parsed.None? ==> !ok
    ensures parsed.Some? ==>
      var host := ToLower(parsed.value.host.GetOr(""));
      (ok <==> !Truthy(allowedSites) || host == ToLower(serverName) || ListAllows(allowedSites, host, hasFnmatch))
  {
    if parsed.None? {
      return false;
    }
    if !Truthy(allowedSites) {
      return true;
    }
    var host := ToLower(parsed.value.host.GetOr(""));
    if host == ToLower(serverName) {
      return true;
    }
    ok := MatchAllowList(allowedSites, host, hasFnmatch);
  }

  /** A list of one literal entry allows exactly that (lowercased, trimmed) name. */
  lemma SingleEntryList(entry: string, subject: string, hasFnmatch: bool)
    requires ',' !in entry
    requires '*' !in entry && '?' !in entry && '[' !in entry && '\\' !in entry
    ensures ListAllows(entry, subject, hasFnmatch) <==> ToLower(Trim(entry, Whitespace)) == subject
  {
    ExplodeNoDelimiter(',', entry);
    var entries := Explode(',', entry);
    assert entries[0] == entry;
    assert ListAllows(entry, subject, hasFnmatch) <==> EntryAllows(entries[0], subject, hasFnmatch);
    var pat := ToLower(Trim(entry, Whitespace));
    TrimAvoids(entry, Whitespace, '*');
    TrimAvoids(entry, Whitespace, '?');
    ToLowerAvoids(Trim(entry, Whitespace), '*');
    ToLowerAvoids(Trim(entry, Whitespace), '?');
    TrimAvoids(entry, Whitespace, '[');
    TrimAvoids(entry, Whitespace, '\\');
    ToLowerAvoids(Trim(entry, Whitespace), '[');
    ToLowerAvoids(Trim(entry, Whitespace), '\\');
    FnmatchLiteral(pat, subject);
  }

  /** Lower-casing introduces no character other than a lowercase letter. */
  lemma ToLowerAvoids(s: string, c: char)
    requires c !in s && !('a' <= c <= 'z')
    ensures c !in ToLower(s)
  {
    forall k | 0 <= k < |s| ensures ToLower(s)[k] != c {
      assert s[k] in s;
    }
  }

  /** Trimming introduces no character. */
  lemma TrimAvoids(s: string, cs: set<char>, c: char)
    requires c !in s
    ensures c !in Trim(s, cs)
  {
    TrimKeeps(s, cs);
  }

  /** Trimming keeps only characters of the string. */
  lemma TrimKeeps(s: string, cs: set<char>)
    ensures forall k :: 0 <= k < |Trim(s, cs)| ==> Trim(s, cs)[k] in s
  {
    var l := TrimLeft(s, cs);
    var r := TrimRight(l, cs);
    assert Trim(s, cs) == r;
    forall k | 0 <= k < |r| ensures r[k] in s {
      assert r[k] == l[k];
      assert l[k] == s[|s| - |l| + k];
    }
  }
}
