/**
 Session usernames of the Decodo proxy provider: each option is sanitised and printed as a
 `key-value` pair, and the pairs are joined by dashes.
 */
module ProxyUsername {
  import opened Optional
  import opened Text

  // ----- sanitising, step by step

  predicate IsAlnum(c: char) { 'a' <= c <= 'z' || '0' <= c <= '9' }

  /**
   Lower case of one character. Apart from A to Z, only the Kelvin sign and the dotted
   capital I have a lower case with a letter from a to z; the lower case of any other
   character is outside a to z and 0 to 9 and plays no further role.
   */
  function LowerChar(c: char): string {
    if 'A' <= c <= 'Z' then [(c as int + 32) as char]
    else if c as int == 0x212A then "k"
    else if c as int == 0x130 then ['i', 0x307 as char]
    else [c]
  }

  lemma AlnumIs(c: char)
    ensures IsAlnum(c) <==> c in LOWER_CASE || c in DIGITS
  {
    LowerCaseIs(c);
    DigitsAre(c);
    hide LOWER_CASE, DIGITS;
  }

  /** Each capital letter becomes the small one at its place in the alphabet; other letters and digits stay. */
  lemma LettersLower(k: nat, c: char)
    requires k < 26
    ensures LowerChar(UPPER_CASE[k]) == [LOWER_CASE[k]]
    ensures c !in UPPER_CASE && c as int < 128 ==> LowerChar(c) == [c]
  {
    CasesAlign(k);
    UpperCaseIs(c);
    hide UPPER_CASE, LOWER_CASE;
  }

  function Lower(s: string): string {
    if s == "" then "" else LowerChar(s[0]) + Lower(s[1..])
  }

  /** Each run of white space becomes one underscore. */
  function SpacesToUnderscore(s: string): string {
    if s == "" then ""
    else if !IsSpace(s[0]) then [s[0]] + SpacesToUnderscore(s[1..])
    else if |s| > 1 && IsSpace(s[1]) then SpacesToUnderscore(s[1..])
    else "_" + SpacesToUnderscore(s[1..])
  }

  function OthersToUnderscore(s: string): string {
    if s == "" then ""
    else [if IsAlnum(s[0]) then s[0] else '_'] + OthersToUnderscore(s[1..])
  }

  /** Each run of underscores becomes one. */
  function Collapse(s: string): string {
    if s == "" then ""
    else if s[0] == '_' && |s| > 1 && s[1] == '_' then Collapse(s[1..])
    else [s[0]] + Collapse(s[1..])
  }

  function StripStart(s: string): string {
    if s != "" && s[0] == '_' then StripStart(s[1..]) else s
  }

  function StripEnd(s: string): string {
    if s != "" && s[|s| - 1] == '_' then StripEnd(s[..|s| - 1]) else s
  }

  function Sanitize(value: string): string {
    if value == "" then ""
    else StripEnd(StripStart(Collapse(OthersToUnderscore(SpacesToUnderscore(Lower(TrimEnd(TrimStart(value))))))))
  }

  // ----- what sanitising means

  predicate StartsAlnum(s: string) { s != "" && IsAlnum(s[0]) }

  /** The maximal runs of letters and digits, left to right. */
  function Words(s: string): (ws: seq<string>)
    ensures StartsAlnum(s) ==> ws != []
  {
    if s == "" then []
    else
      var rest := Words(s[1..]);
      if !IsAlnum(s[0]) then rest
      else if StartsAlnum(s[1..]) then [[s[0]] + rest[0]] + rest[1..]
      else [[s[0]]] + rest
  }

  /** Both texts have the same words, at the same place relative to the start. */
  ghost predicate SameWords(s: string, t: string) {
    Words(s) == Words(t) && StartsAlnum(s) == StartsAlnum(t)
  }

  lemma WordsCons(c: char, s: string, t: string)
    requires SameWords(s, t)
    ensures SameWords([c] + s, [c] + t)
  {
    assert ([c] + s)[1..] == s && ([c] + t)[1..] == t;
  }

  lemma {:induction false} SpacesKeepWords(s: string)
    ensures SameWords(SpacesToUnderscore(s), s)
  {
    if s != "" {
      SpacesKeepWords(s[1..]);
      assert s == [s[0]] + s[1..];
      if !IsSpace(s[0]) {
        WordsCons(s[0], SpacesToUnderscore(s[1..]), s[1..]);
      } else {
        assert ("_" + SpacesToUnderscore(s[1..]))[1..] == SpacesToUnderscore(s[1..]);
      }
    }
  }

  lemma {:induction false} OthersKeepWords(s: string)
    ensures SameWords(OthersToUnderscore(s), s)
  {
    if s != "" {
      OthersKeepWords(s[1..]);
      assert s == [s[0]] + s[1..];
      if IsAlnum(s[0]) {
        WordsCons(s[0], OthersToUnderscore(s[1..]), s[1..]);
      } else {
        assert (['_'] + OthersToUnderscore(s[1..]))[1..] == OthersToUnderscore(s[1..]);
      }
    }
  }

  lemma {:induction false} CollapseKeepsWords(s: string)
    ensures SameWords(Collapse(s), s)
  {
    if s != "" {
      CollapseKeepsWords(s[1..]);
      assert s == [s[0]] + s[1..];
      if !(s[0] == '_' && |s| > 1 && s[1] == '_') {
        WordsCons(s[0], Collapse(s[1..]), s[1..]);
      }
    }
  }

  lemma {:induction false} StripStartKeepsWords(s: string)
    ensures Words(StripStart(s)) == Words(s)
  {
    if s != "" && s[0] == '_' {
      StripStartKeepsWords(s[1..]);
    }
  }

  lemma {:induction false} DropLastKeepsWords(s: string)
    requires s != "" && !IsAlnum(s[|s| - 1])
    ensures Words(s[..|s| - 1]) == Words(s)
    decreases |s|
  {
    if |s| > 1 {
      var t := s[1..];
      DropLastKeepsWords(t);
      assert s[..|s| - 1] == [s[0]] + t[..|t| - 1];
      assert s == [s[0]] + t;
      WordsCons(s[0], t[..|t| - 1], t);
    }
  }

  lemma {:induction false} StripEndKeepsWords(s: string)
    ensures Words(StripEnd(s)) == Words(s)
    decreases |s|
  {
    if s != "" && s[|s| - 1] == '_' {
      DropLastKeepsWords(s);
      StripEndKeepsWords(s[..|s| - 1]);
    }
  }

  lemma SpaceIsItsLowerCase(c: char)
    requires IsSpace(c)
    ensures LowerChar(c) == [c] && !IsAlnum(c)
  {
  }

  lemma {:induction false} LowerAppend(s: string, c: char)
    ensures Lower(s + [c]) == Lower(s) + LowerChar(c)
  {
    hide LowerChar;
    if s == "" {
      assert s + [c] == [c];
      assert Lower([c]) == LowerChar(c) + Lower([c][1..]);
    } else {
      assert (s + [c])[1..] == s[1..] + [c];
      LowerAppend(s[1..], c);
    }
  }

  lemma {:induction false} TrimStartKeepsWords(s: string)
    ensures Words(Lower(TrimStart(s))) == Words(Lower(s))
  {
    if s != "" && IsSpace(s[0]) {
      TrimStartKeepsWords(s[1..]);
      SpaceIsItsLowerCase(s[0]);
      assert Lower(s)[1..] == Lower(s[1..]);
    }
  }

  lemma {:induction false} TrimEndKeepsWords(s: string)
    ensures Words(Lower(TrimEnd(s))) == Words(Lower(s))
    decreases |s|
  {
    if s != "" && IsSpace(s[|s| - 1]) {
      var front, c := s[..|s| - 1], s[|s| - 1];
      TrimEndKeepsWords(front);
      SpaceIsItsLowerCase(c);
      assert s == front + [c];
      LowerAppend(front, c);
      assert Lower(s)[..|Lower(s)| - 1] == Lower(front);
      DropLastKeepsWords(Lower(s));
    }
  }

  // ----- the normal form

  /** Letters and digits, and underscores only between them. */
  ghost predicate Clean(s: string) {
    && (forall i :: 0 <= i < |s| ==> IsAlnum(s[i]) || s[i] == '_')
    && (forall i :: 0 <= i < |s| - 1 ==> s[i] == '_' ==> s[i + 1] != '_')
  }

  lemma {:induction false} OthersAreGone(s: string)
    ensures forall i :: 0 <= i < |OthersToUnderscore(s)| ==> IsAlnum(OthersToUnderscore(s)[i]) || OthersToUnderscore(s)[i] == '_'
  {
    if s != "" {
      OthersAreGone(s[1..]);
    }
  }

  lemma {:induction false} CollapseCleans(s: string)
    requires forall i :: 0 <= i < |s| ==> IsAlnum(s[i]) || s[i] == '_'
    ensures Clean(Collapse(s))
    ensures Collapse(s) == "" <==> s == ""
    ensures s != "" ==> Collapse(s)[0] == s[0]
  {
    if s != "" {
      CollapseCleans(s[1..]);
    }
  }

  lemma {:induction false} StripStartCleans(s: string)
    requires Clean(s)
    ensures Clean(StripStart(s)) && (StripStart(s) != "" ==> IsAlnum(StripStart(s)[0]))
  {
    if s != "" && s[0] == '_' {
      StripStartCleans(s[1..]);
    }
  }

  lemma {:induction false} StripEndCleans(s: string)
    requires Clean(s) && (s != "" ==> IsAlnum(s[0]))
    ensures
      var r := StripEnd(s);
      Clean(r) && (r != "" ==> IsAlnum(r[0]) && IsAlnum(r[|r| - 1]))
    decreases |s|
  {
    if s != "" && s[|s| - 1] == '_' {
      StripEndCleans(s[..|s| - 1]);
    }
  }

  /** A clean text without outer underscores is its words joined by single underscores. */
  lemma JoinLongerHead(c: char, ws: seq<string>)
    requires ws != []
    ensures Join([[c] + ws[0]] + ws[1..], '_') == [c] + Join(ws, '_')
  {
    var longer := [[c] + ws[0]] + ws[1..];
    assert longer[1..] == ws[1..];
    if |ws| > 1 {
      Regroup(c, ws[0], Join(ws[1..], '_'));
    }
  }

  lemma Regroup(c: char, w: string, rest: string)
    ensures [c] + w + ['_'] + rest == [c] + (w + ['_'] + rest)
  {
  }

  lemma {:induction false} CleanIsJoinedWords(s: string)
    requires Clean(s) && (s != "" ==> IsAlnum(s[|s| - 1]))
    ensures StartsAlnum(s) ==> s == Join(Words(s), '_')
    ensures s != "" && !StartsAlnum(s) ==> s == "_" + Join(Words(s), '_') && Words(s) != []
    decreases |s|
  {
    if s != "" {
      var t := s[1..];
      CleanIsJoinedWords(t);
      assert s == [s[0]] + t;
      if StartsAlnum(s) && t != "" {
        var rest := Words(t);
        if StartsAlnum(t) {
          JoinLongerHead(s[0], rest);
        } else {
          assert ([[s[0]]] + rest)[1..] == rest;
          assert Join([[s[0]]] + rest, '_') == [s[0]] + "_" + Join(rest, '_');
        }
      }
    }
  }

  /** Sanitising yields exactly the runs of letters and digits, joined by single underscores. */
  lemma SanitizeIsJoinedWords(value: string)
    ensures Sanitize(value) == Join(Words(Lower(value)), '_')
    ensures Words(Sanitize(value)) == Words(Lower(value))
  {
    if value != "" {
      var t0 := Lower(TrimEnd(TrimStart(value)));
      TrimStartKeepsWords(value);
      TrimEndKeepsWords(TrimStart(value));
      var t1 := SpacesToUnderscore(t0);
      SpacesKeepWords(t0);
      var t2 := OthersToUnderscore(t1);
      OthersKeepWords(t1);
      OthersAreGone(t1);
      var t3 := Collapse(t2);
      CollapseKeepsWords(t2);
      CollapseCleans(t2);
      var t4 := StripStart(t3);
      StripStartKeepsWords(t3);
      StripStartCleans(t3);
      var t5 := StripEnd(t4);
      StripEndKeepsWords(t4);
      StripEndCleans(t4);
      CleanIsJoinedWords(t5);
    }
  }

  /** The characters of a sanitised value; in particular no dash. */
  lemma SanitizeCleans(value: string)
    ensures forall i :: 0 <= i < |Sanitize(value)| ==> IsAlnum(Sanitize(value)[i]) || Sanitize(value)[i] == '_'
  {
    if value != "" {
      var t1 := SpacesToUnderscore(Lower(TrimEnd(TrimStart(value))));
      OthersAreGone(t1);
      CollapseCleans(OthersToUnderscore(t1));
      StripStartCleans(Collapse(OthersToUnderscore(t1)));
      StripEndCleans(StripStart(Collapse(OthersToUnderscore(t1))));
    }
  }

  lemma {:induction false} LowerOfClean(s: string)
    requires forall i :: 0 <= i < |s| ==> IsAlnum(s[i]) || s[i] == '_'
    ensures Lower(s) == s
  {
    if s != "" {
      assert IsAlnum(s[0]) || s[0] == '_';
      LowerOfClean(s[1..]);
      assert s == [s[0]] + s[1..];
    }
  }

  lemma SanitizeIdempotent(value: string)
    ensures Sanitize(Sanitize(value)) == Sanitize(value)
  {
    SanitizeCleans(value);
    LowerOfClean(Sanitize(value));
    SanitizeIsJoinedWords(value);
    SanitizeIsJoinedWords(Sanitize(value));
  }

  // ----- the username

  /** The options as given; `minutes` is absent when it is not a finite number. */
  datatype Options = Options(
    country: string, state: string, city: string, zip: string, sessionId: string, minutes: Option<real>)

  /** The sanitised fields a username carries; an empty text or no duration means absent. */
  datatype Fields = Fields(
    user: string, country: string, state: string, city: string, zip: string, session: string, minutes: Option<nat>)

  /** Truncates towards zero. */
  function Trunc(x: real): int {
    if x >= 0.0 then x.Floor else -((-x).Floor)
  }

  function ClampMinutes(x: real): nat {
    var t := if Trunc(x) < 1440 then Trunc(x) else 1440;
    if t < 1 then 1 else t
  }

  function FieldsOf(base: string, o: Options): Fields {
    Fields(Sanitize(base), Sanitize(o.country), Sanitize(o.state), Sanitize(o.city), Sanitize(o.zip),
           Sanitize(o.sessionId), if o.minutes.Some? then Some(ClampMinutes(o.minutes.value)) else None)
  }

  function Pair(key: string, value: string): seq<string> {
    if value == "" then [] else [key, value]
  }

  function MinutesText(m: Option<nat>): string {
    if m.Some? then Decimal(m.value) else ""
  }

  /** The dash-separated tokens of a username. */
  function Tokens(f: Fields): seq<string> {
    ["user", f.user] + (Pair("country", f.country) + (Pair("state", f.state) + (Pair("city", f.city)
    + (Pair("zip", f.zip) + (Pair("session", f.session) + Pair("sessionduration", MinutesText(f.minutes)))))))
  }

  lemma {:induction false} JoinAppend(parts: seq<string>, last: string, sep: char)
    requires parts != []
    ensures Join(parts + [last], sep) == Join(parts, sep) + [sep] + last
  {
    if |parts| == 1 {
      assert (parts + [last])[1..] == [last];
    } else {
      JoinAppend(parts[1..], last, sep);
      assert (parts + [last])[1..] == parts[1..] + [last];
    }
  }

  /** Appends one `key-value` part when the value is present. */
  method PushPart(parts: seq<string>, key: string, value: string, ghost tokens: seq<string>) returns (r: seq<string>)
    requires parts != [] && tokens != [] && Join(parts, '-') == Join(tokens, '-')
    ensures r != [] && Join(r, '-') == Join(tokens + Pair(key, value), '-')
  {
    r := parts;
    if value != "" {
      r := parts + [key + "-" + value];
      JoinAppend(parts, key + "-" + value, '-');
      JoinAppend(tokens, key, '-');
      JoinAppend(tokens + [key], value, '-');
      assert tokens + [key] + [value] == tokens + Pair(key, value);
    } else {
      assert tokens + Pair(key, value) == tokens;
    }
  }

  lemma UserPart(user: string)
    ensures Join(["user-" + user], '-') == Join(["user", user], '-')
  {
    assert ["user", user][1..] == [user];
    assert "user-" + user == "user" + ['-'] + user;
  }

  lemma Reassociate(a: seq<string>, b: seq<string>, c: seq<string>, d: seq<string>, e: seq<string>, f: seq<string>,
                    g: seq<string>)
    ensures a + b + c + d + e + f + g == a + (b + (c + (d + (e + (f + g)))))
  {
    assert a + b + c + d + e + f + g == a + b + c + d + (e + (f + g));
    assert a + b + c + d + (e + (f + g)) == a + b + (c + (d + (e + (f + g))));
  }

  // ----- decoding

  /** Reads the value of `key` when it comes next. */
  function Read(tokens: seq<string>, key: string): (string, seq<string>) {
    if |tokens| >= 2 && tokens[0] == key then (tokens[1], tokens[2..]) else ("", tokens)
  }

  function Numeral(s: string): Option<nat> {
    if s != "" && forall i :: 0 <= i < |s| ==> IsDigit(s[i]) then Some(Value(s)) else None
  }

  function Decode(username: string): Fields {
    var (user, t0) := Read(Split(username, '-'), "user");
    var (country, t1) := Read(t0, "country");
    var (state, t2) := Read(t1, "state");
    var (city, t3) := Read(t2, "city");
    var (zip, t4) := Read(t3, "zip");
    var (session, t5) := Read(t4, "session");
    var (minutes, _) := Read(t5, "sessionduration");
    Fields(user, country, state, city, zip, session, Numeral(minutes))
  }

  /** The next token, if any, is not `key`. */
  ghost predicate NotNext(tokens: seq<string>, key: string) {
    tokens == [] || tokens[0] != key
  }

  lemma ReadPair(key: string, value: string, rest: seq<string>)
    requires NotNext(rest, key)
    ensures Read(Pair(key, value) + rest, key) == (value, rest)
  {
    if value == "" {
      assert Pair(key, value) + rest == rest;
    } else {
      assert (Pair(key, value) + rest)[2..] == rest;
    }
  }

  lemma SkipPair(key: string, value: string, rest: seq<string>, other: string)
    requires key != other && NotNext(rest, other)
    ensures NotNext(Pair(key, value) + rest, other)
  {
    assert value == "" ==> Pair(key, value) + rest == rest;
  }

  ghost predicate NoDash(s: string) { '-' !in s }

  ghost predicate NoDashes(ts: seq<string>) {
    forall i :: 0 <= i < |ts| ==> NoDash(ts[i])
  }

  lemma MinutesRoundTrip(m: Option<nat>)
    ensures Numeral(MinutesText(m)) == m && NoDash(MinutesText(m))
  {
    if m.Some? {
      ValueOfDecimal(m.value);
      var d := Decimal(m.value);
      forall i | 0 <= i < |d| ensures d[i] != '-' {
        assert IsDigit(d[i]);
      }
    }
  }

  /** The tokens after the user, from the last field to the first. */
  lemma TokensDecode(f: Fields)
    requires f.user != "" && NoDashes([f.user, f.country, f.state, f.city, f.zip, f.session])
    ensures Decode(Join(Tokens(f), '-')) == f
  {
    var m := MinutesText(f.minutes);
    MinutesRoundTrip(f.minutes);
    hide Decimal, MinutesText;
    var r5 := Pair("sessionduration", m);
    var r4 := Pair("session", f.session) + r5;
    var r3 := Pair("zip", f.zip) + r4;
    var r2 := Pair("city", f.city) + r3;
    var r1 := Pair("state", f.state) + r2;
    var r0 := Pair("country", f.country) + r1;
    assert Tokens(f) == ["user", f.user] + r0;
    assert r5 + [] == r5;
    ReadPair("sessionduration", m, []);
    ReadPair("session", f.session, r5);
    SkipPair("session", f.session, r5, "zip");
    ReadPair("zip", f.zip, r4);
    SkipPair("session", f.session, r5, "city");
    SkipPair("zip", f.zip, r4, "city");
    ReadPair("city", f.city, r3);
    SkipPair("session", f.session, r5, "state");
    SkipPair("zip", f.zip, r4, "state");
    SkipPair("city", f.city, r3, "state");
    ReadPair("state", f.state, r2);
    SkipPair("session", f.session, r5, "country");
    SkipPair("zip", f.zip, r4, "country");
    SkipPair("city", f.city, r3, "country");
    SkipPair("state", f.state, r2, "country");
    ReadPair("country", f.country, r1);
    TokensHaveNoDash(f);
    SplitJoin(Tokens(f), '-');
    assert (["user", f.user] + r0)[2..] == r0;
  }

  lemma PairHasNoDash(key: string, value: string)
    requires NoDash(key) && NoDash(value)
    ensures NoDashes(Pair(key, value))
  {
  }

  lemma AppendHasNoDash(a: seq<string>, b: seq<string>)
    requires NoDashes(a) && NoDashes(b)
    ensures NoDashes(a + b)
  {
  }

  lemma TokensHaveNoDash(f: Fields)
    requires NoDashes([f.user, f.country, f.state, f.city, f.zip, f.session])
    ensures forall i :: 0 <= i < |Tokens(f)| ==> '-' !in Tokens(f)[i]
  {
    var fields := [f.user, f.country, f.state, f.city, f.zip, f.session];
    var m := MinutesText(f.minutes);
    MinutesRoundTrip(f.minutes);
    assert NoDash(fields[0]) && NoDash(fields[1]) && NoDash(fields[2]) && NoDash(fields[3]) && NoDash(fields[4]) && NoDash(fields[5]);
    hide MinutesText;
    PairHasNoDash("sessionduration", m);
    PairHasNoDash("session", f.session);
    PairHasNoDash("zip", f.zip);
    PairHasNoDash("city", f.city);
    PairHasNoDash("state", f.state);
    PairHasNoDash("country", f.country);
    hide Pair;
    var r4 := Pair("session", f.session) + Pair("sessionduration", m);
    AppendHasNoDash(Pair("session", f.session), Pair("sessionduration", m));
    AppendHasNoDash(Pair("zip", f.zip), r4);
    AppendHasNoDash(Pair("city", f.city), Pair("zip", f.zip) + r4);
    AppendHasNoDash(Pair("state", f.state), Pair("city", f.city) + (Pair("zip", f.zip) + r4));
    AppendHasNoDash(Pair("country", f.country), Pair("state", f.state) + (Pair("city", f.city) + (Pair("zip", f.zip) + r4)));
    assert NoDashes(["user", f.user]);
    AppendHasNoDash(["user", f.user], Pair("country", f.country) + (Pair("state", f.state) + (Pair("city", f.city) + (Pair("zip", f.zip) + r4))));
    assert NoDashes(Tokens(f));
  }

  lemma SanitizedHasNoDash(value: string)
    ensures NoDash(Sanitize(value))
  {
    SanitizeCleans(value);
    var s := Sanitize(value);
    forall i | 0 <= i < |s| ensures s[i] != '-' {
      assert IsAlnum(s[i]) || s[i] == '_';
    }
  }

  /** Splitting a username on dashes recovers exactly the fields it was made of. */
  lemma UsernameDecodes(base: string, o: Options)
    requires Sanitize(base) != ""
    ensures Carries(Join(Tokens(FieldsOf(base, o)), '-'), base, o)
  {
    SanitizedHasNoDash(base);
    SanitizedHasNoDash(o.country);
    SanitizedHasNoDash(o.state);
    SanitizedHasNoDash(o.city);
    SanitizedHasNoDash(o.zip);
    SanitizedHasNoDash(o.sessionId);
    if o.minutes.Some? {
      MinutesAre(o.minutes.value);
    }
    hide Sanitize, ClampMinutes, Truncated, Decode;
    TokensDecode(FieldsOf(base, o));
  }

  /** `n` is `x` with its fraction cut off. */
  ghost predicate Truncated(x: real, n: int) {
    if x >= 0.0 then n as real <= x < n as real + 1.0 else n as real - 1.0 < x <= n as real
  }

  /** The duration is the truncated one, but at least a minute and at most a day. */
  ghost predicate Clamped(x: real, minutes: nat) {
    || (Truncated(x, minutes) && 1 <= minutes <= 1440)
    || (minutes == 1 && x < 1.0)
    || (minutes == 1440 && x >= 1441.0)
  }

  lemma MinutesAre(x: real)
    ensures Clamped(x, ClampMinutes(x))
  {
  }

  /** A duration has one clamped value only. */
  lemma MinutesAreUnique(x: real, m: nat, n: nat)
    requires Clamped(x, m) && Clamped(x, n)
    ensures m == n
  {
  }

  /** Decoding the username gives every sanitised option in its own place, and the clamped duration. */
  ghost predicate Carries(username: string, base: string, o: Options) {
    var f := Decode(username);
    && f.user == Sanitize(base) && f.country == Sanitize(o.country) && f.state == Sanitize(o.state)
    && f.city == Sanitize(o.city) && f.zip == Sanitize(o.zip) && f.session == Sanitize(o.sessionId)
    && (f.minutes.None? <==> o.minutes.None?)
    && (o.minutes.Some? ==> Clamped(o.minutes.value, f.minutes.value))
  }

  /** Two requests ask for the same session. */
  ghost predicate SameRequest(base1: string, o1: Options, base2: string, o2: Options) {
    && Sanitize(base1) == Sanitize(base2) && Sanitize(o1.country) == Sanitize(o2.country)
    && Sanitize(o1.state) == Sanitize(o2.state) && Sanitize(o1.city) == Sanitize(o2.city)
    && Sanitize(o1.zip) == Sanitize(o2.zip) && Sanitize(o1.sessionId) == Sanitize(o2.sessionId)
    && (o1.minutes.Some? <==> o2.minutes.Some?)
    && (o1.minutes.Some? ==> exists m: nat :: Clamped(o1.minutes.value, m) && Clamped(o2.minutes.value, m))
  }

  /** Usernames are equal exactly when base, options and clamped durations agree after sanitising. */
  lemma UsernamesIdentify(base1: string, o1: Options, base2: string, o2: Options)
    requires Sanitize(base1) != "" && Sanitize(base2) != ""
    ensures Join(Tokens(FieldsOf(base1, o1)), '-') == Join(Tokens(FieldsOf(base2, o2)), '-')
      <==> SameRequest(base1, o1, base2, o2)
  {
    UsernameDecodes(base1, o1);
    UsernameDecodes(base2, o2);
    if o1.minutes.Some? && o2.minutes.Some? {
      MinutesAre(o1.minutes.value);
      MinutesAre(o2.minutes.value);
      if m: nat :| Clamped(o1.minutes.value, m) && Clamped(o2.minutes.value, m) {
        MinutesAreUnique(o1.minutes.value, m, ClampMinutes(o1.minutes.value));
        MinutesAreUnique(o2.minutes.value, m, ClampMinutes(o2.minutes.value));
      }
    }
    hide Sanitize, Decode, Tokens, Join, ClampMinutes, Clamped;
  }

  method BuildSessionUsername(base: string, o: Options) returns (username: string)
    ensures Sanitize(base) == "" ==> username == ""
    ensures Sanitize(base) != "" ==> username == Join(Tokens(FieldsOf(base, o)), '-') && Carries(username, base, o)
  {
    hide Sanitize, Join, Pair, MinutesText, Carries;
    var f := FieldsOf(base, o);
    if f.user == "" {
      return "";
    }
    var parts := ["user-" + f.user];
    ghost var t0 := ["user", f.user];
    UserPart(f.user);
    parts := PushPart(parts, "country", f.country, t0);
    ghost var t1 := t0 + Pair("country", f.country);
    parts := PushPart(parts, "state", f.state, t1);
    ghost var t2 := t1 + Pair("state", f.state);
    parts := PushPart(parts, "city", f.city, t2);
    ghost var t3 := t2 + Pair("city", f.city);
    parts := PushPart(parts, "zip", f.zip, t3);
    ghost var t4 := t3 + Pair("zip", f.zip);
    parts := PushPart(parts, "session", f.session, t4);
    ghost var t5 := t4 + Pair("session", f.session);
    parts := PushPart(parts, "sessionduration", MinutesText(f.minutes), t5);
    Reassociate(t0, Pair("country", f.country), Pair("state", f.state), Pair("city", f.city), Pair("zip", f.zip),
                Pair("session", f.session), Pair("sessionduration", MinutesText(f.minutes)));
    username := Join(parts, '-');
    UsernameDecodes(base, o);
  }
}
