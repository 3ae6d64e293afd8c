/**
 Element references of an accessibility snapshot. One pass numbers the interactive lines
 `e1`, `e2`, ... and remembers role, name and occurrence; a later pass over the same text
 recomputes the occurrences and writes `[eK]` on the lines whose key it finds again.
 */
module RefAnnotation {
  import opened Text

  const MAX_SNAPSHOT_NODES := 500

  const INTERACTIVE_ROLES: set<string> := {
    "button", "link", "textbox", "checkbox", "radio",
    "menuitem", "listitem", "combobox", "tab", "searchbox", "slider", "spinbutton", "switch"
  }

  // ----- one snapshot line

  predicate IsWord(c: char) {
    'a' <= c <= 'z' || 'A' <= c <= 'Z' || '0' <= c <= '9' || c == '_'
  }

  /** The character classes of the line pattern. */
  datatype CharKind = Space | Word | NotQuote

  predicate In(c: char, kind: CharKind) {
    match kind
    case Space => IsSpace(c)
    case Word => IsWord(c)
    case NotQuote => c != '"'
  }

  /** Where the longest run of characters of that kind starting at `i` ends. */
  function RunEnd(s: string, i: nat, kind: CharKind): (e: nat)
    requires i <= |s|
    ensures i <= e <= |s| && (forall k :: i <= k < e ==> In(s[k], kind)) && (e < |s| ==> !In(s[e], kind))
    decreases |s| - i
  {
    if i == |s| || !In(s[i], kind) then i else RunEnd(s, i + 1, kind)
  }

  function LowerChar(c: char): char {
    if 'A' <= c <= 'Z' then (c as int + 32) as char else c
  }

  lemma WordCharsAre(c: char)
    ensures IsWord(c) <==> c in UPPER_CASE || c in LOWER_CASE || c in DIGITS || c == '_'
  {
    UpperCaseIs(c);
    LowerCaseIs(c);
    DigitsAre(c);
    hide UPPER_CASE, LOWER_CASE, DIGITS;
  }

  /** Each capital letter becomes the small one at its place in the alphabet; other word characters stay. */
  lemma LettersLower(k: nat, c: char)
    requires k < 26
    ensures LowerChar(UPPER_CASE[k]) == LOWER_CASE[k]
    ensures c !in UPPER_CASE ==> LowerChar(c) == c
  {
    CasesAlign(k);
    UpperCaseIs(c);
    hide UPPER_CASE, LOWER_CASE;
  }

  function Lower(s: string): (r: string)
    ensures |r| == |s| && forall i :: 0 <= i < |s| ==> r[i] == LowerChar(s[i])
  {
    seq(|s|, i requires 0 <= i < |s| => LowerChar(s[i]))
  }

  /** A parsed line: `prefix`, role word, optional quoted name with its spacing, remainder. */
  datatype Node = Node(prefix: string, role: string, quoted: string, name: string, suffix: string)

  datatype Parsed = NoNode | IsNode(node: Node)

  /**
   A line of the form: spaces, dash, spaces, word, then optionally spaces and a quoted
   name. A missing name reads as the empty one.
   */
  function Parse(line: string): Parsed {
    var dash := RunEnd(line, 0, Space);
    if dash == |line| || line[dash] != '-' then NoNode
    else ParseRole(line, dash + 1, RunEnd(line, dash + 1, Space))
  }

  /** After a dash just before `i` and the spaces from `i` to `j`. */
  function ParseRole(line: string, i: nat, j: nat): Parsed
    requires i <= j <= |line|
  {
    var k := RunEnd(line, j, Word);
    if j == i || k == j then NoNode else IsNode(Cut(line, j, k, QuotedEnd(line, k)))
  }

  /** The node with role `line[j..k]` and quoted name, if any, ending at `q`. */
  function Cut(line: string, j: nat, k: nat, q: nat): Node
    requires j <= k <= q <= |line|
  {
    var open := RunEnd(line, k, Space);
    Node(line[..j], line[j..k], line[k..q], if open + 1 < q then line[open + 1..q - 1] else "", line[q..])
  }

  /** Where a group of spaces and a quoted name starting at `k` ends; `k` when there is none. */
  function QuotedEnd(s: string, k: nat): (q: nat)
    requires k <= |s|
    ensures k <= q <= |s|
  {
    var open := RunEnd(s, k, Space);
    if open == k || open == |s| || s[open] != '"' then k
    else
      var close := RunEnd(s, open + 1, NotQuote);
      if close == |s| then k else close + 1
  }

  ghost predicate Exact(n: Node, line: string) {
    && n.prefix + n.role + n.quoted + n.suffix == line
    && forall i :: 0 <= i < |n.role| ==> IsWord(n.role[i])
  }

  lemma CutIsExact(line: string, j: nat, k: nat, q: nat)
    requires j <= k <= q <= |line| && forall x :: j <= x < k ==> In(line[x], Word)
    ensures Exact(Cut(line, j, k, q), line)
  {
    assert line[..j] + line[j..k] + line[k..q] + line[q..] == line;
  }

  lemma {:induction false} RoleIsExact(line: string, i: nat, j: nat)
    requires i <= j <= |line| && ParseRole(line, i, j).IsNode?
    ensures Exact(ParseRole(line, i, j).node, line)
  {
    var k := RunEnd(line, j, Word);
    CutIsExact(line, j, k, QuotedEnd(line, k));
  }

  /** Parsing loses nothing, and the role is a word. */
  lemma {:induction false} ParseIsExact(line: string)
    requires Parse(line).IsNode?
    ensures Exact(Parse(line).node, line)
  {
    var dash := RunEnd(line, 0, Space);
    RoleIsExact(line, dash + 1, RunEnd(line, dash + 1, Space));
  }

  // The shape of a line, without saying how it is found.

  ghost predicate All(s: string, kind: CharKind) {
    forall i :: 0 <= i < |s| ==> In(s[i], kind)
  }

  ghost predicate Bullet(prefix: string, before: string, after: string) {
    prefix == before + "-" + after && All(before, Space) && after != "" && All(after, Space)
  }

  ghost predicate Quoted(text: string, gap: string, name: string) {
    text == gap + "\"" + name + "\"" && gap != "" && All(gap, Space) && '"' !in name
  }

  /** The text goes on with a gap and a quoted name. */
  ghost predicate GoesOnQuoted(text: string) {
    exists q, gap, name :: 0 <= q <= |text| && Quoted(text[..q], gap, name)
  }

  ghost predicate HasBullet(prefix: string) {
    exists before, after :: Bullet(prefix, before, after)
  }

  /** A quoted name, or none: then the word has ended and no quoted name follows. */
  ghost predicate NameOk(n: Node) {
    if n.quoted == "" then n.name == "" && !GoesOnQuoted(n.suffix) && (n.suffix == "" || !IsWord(n.suffix[0]))
    else exists gap :: Quoted(n.quoted, gap, n.name)
  }

  /**
   A bullet, a whole word, and a quoted name if one follows; the name is what is between
   the quotes, and the remainder is kept as it is.
   */
  ghost predicate Shape(line: string, n: Node) {
    && line == n.prefix + n.role + n.quoted + n.suffix
    && HasBullet(n.prefix) && n.role != "" && All(n.role, Word) && NameOk(n)
  }

  lemma {:induction false} RunEndIs(s: string, i: nat, e: nat, kind: CharKind)
    requires i <= e <= |s| && (forall k :: i <= k < e ==> In(s[k], kind)) && (e == |s| || !In(s[e], kind))
    ensures RunEnd(s, i, kind) == e
    decreases e - i
  {
    if i < e {
      RunEndIs(s, i + 1, e, kind);
    }
  }

  /** Where the parts of a quoted name lie in the line. */
  lemma QuotedIndices(line: string, k: nat, q: nat, gap: string, name: string)
    requires k <= q <= |line| && Quoted(line[k..q], gap, name)
    ensures
      var open := k + |gap|;
      && k < open < q - 1 && q - 1 - open - 1 == |name| && line[open] == '"' && line[q - 1] == '"'
      && (forall i :: k <= i < open ==> In(line[i], Space)) && (forall i :: open + 1 <= i < q - 1 ==> line[i] != '"')
      && line[open + 1..q - 1] == name
  {
    hide IsSpace;
    var text, open := line[k..q], k + |gap|;
    assert text[..|gap|] == gap && text[|gap|] == '"' && text[|text| - 1] == '"' && text[|gap| + 1..|text| - 1] == name;
    assert line[k..open] == text[..|gap|] && line[open + 1..q - 1] == text[|gap| + 1..|text| - 1];
    assert forall i :: k <= i < open ==> line[i] == line[k..open][i - k];
    assert forall i :: open + 1 <= i < q - 1 ==> line[i] == line[open + 1..q - 1][i - open - 1];
  }

  lemma QuotedEndIs(line: string, k: nat, q: nat, gap: string, name: string)
    requires k <= q <= |line| && Quoted(line[k..q], gap, name)
    ensures RunEnd(line, k, Space) == k + |gap| && QuotedEnd(line, k) == q
    ensures k < k + |gap| < q - 1 && line[k + |gap| + 1..q - 1] == name
  {
    QuotedIndices(line, k, q, gap, name);
    var open := k + |gap|;
    RunEndIs(line, k, open, Space);
    RunEndIs(line, open + 1, q - 1, NotQuote);
    hide RunEnd, Quoted;
  }

  lemma FourParts(line: string, a: nat, b: nat, c: nat, d: nat, e: nat)
    requires a <= b <= c <= d <= e <= |line|
    ensures line[a..b] + line[b..c] + line[c..d] + line[d..e] == line[a..e]
  {
  }

  lemma QuotedEndGives(line: string, k: nat)
    requires k <= |line| && QuotedEnd(line, k) != k
    ensures
      var open, q := RunEnd(line, k, Space), QuotedEnd(line, k);
      k < open < open + 1 <= q - 1 < |line| && Quoted(line[k..q], line[k..open], line[open + 1..q - 1])
  {
    var open, q := RunEnd(line, k, Space), QuotedEnd(line, k);
    assert q - 1 == RunEnd(line, open + 1, NotQuote) && line[q - 1] == '"' && line[open] == '"';
    hide RunEnd, QuotedEnd, IsSpace;
    FourParts(line, k, open, open + 1, q - 1, q);
    assert line[open..open + 1] == "\"" && line[q - 1..q] == "\"";
    assert All(line[k..open], Space) && '"' !in line[open + 1..q - 1];
  }

  /** The quoted name, or its absence, after the role. */
  lemma NameInQuotes(line: string, k: nat)
    requires k <= |line|
    ensures
      var open, q := RunEnd(line, k, Space), QuotedEnd(line, k);
      if q == k then !GoesOnQuoted(line[k..])
      else open + 1 < q && Quoted(line[k..q], line[k..open], line[open + 1..q - 1])
  {
    hide RunEnd, IsSpace;
    if QuotedEnd(line, k) != k {
      QuotedEndGives(line, k);
    } else if r, gap, name :| 0 <= r <= |line[k..]| && Quoted(line[k..][..r], gap, name) {
      assert line[k..][..r] == line[k..k + r];
      QuotedEndIs(line, k, k + r, gap, name);
    }
  }

  lemma BulletBefore(line: string, dash: nat, j: nat)
    requires dash + 1 < j <= |line| && line[dash] == '-'
    requires (forall i :: 0 <= i < dash ==> In(line[i], Space)) && forall i :: dash + 1 <= i < j ==> In(line[i], Space)
    ensures Bullet(line[..j], line[..dash], line[dash + 1..j])
  {
    hide IsSpace;
    FourParts(line, 0, 0, dash, dash + 1, j);
    assert line[dash..dash + 1] == "-" && line[0..0] == "" && line[..j] == line[0..j] && line[..dash] == line[0..dash];
    assert All(line[..dash], Space) && All(line[dash + 1..j], Space);
  }

  /** What parsing has found at its places: a bullet, a word, and what follows it. */
  lemma PartsOfNode(line: string) returns (dash: nat, j: nat, k: nat)
    requires Parse(line).IsNode?
    ensures dash + 1 < j < k <= |line| && line[dash] == '-'
    ensures (forall i :: 0 <= i < dash ==> In(line[i], Space)) && forall i :: dash + 1 <= i < j ==> In(line[i], Space)
    ensures (forall i :: j <= i < k ==> In(line[i], Word)) && (k < |line| ==> !In(line[k], Word))
    ensures Parse(line).node == Cut(line, j, k, QuotedEnd(line, k))
  {
    dash := RunEnd(line, 0, Space);
    j := RunEnd(line, dash + 1, Space);
    k := RunEnd(line, j, Word);
    hide RunEnd, Cut, QuotedEnd;
  }

  lemma CutHasName(line: string, j: nat, k: nat)
    requires j <= k <= |line| && (k < |line| ==> !In(line[k], Word))
    ensures NameOk(Cut(line, j, k, QuotedEnd(line, k)))
  {
    NameInQuotes(line, k);
    var open, q := RunEnd(line, k, Space), QuotedEnd(line, k);
    hide QuotedEnd, RunEnd, Quoted, GoesOnQuoted;
    if q == k {
      assert line[k..q] == "";
      assert k < |line| ==> line[k..][0] == line[k];
    } else {
      assert |line[k..q]| == q - k;
    }
  }

  lemma CutHasRole(line: string, j: nat, k: nat, q: nat)
    requires j < k <= q <= |line| && forall i :: j <= i < k ==> In(line[i], Word)
    ensures Cut(line, j, k, q).role != "" && All(Cut(line, j, k, q).role, Word)
  {
    hide IsWord, RunEnd;
    assert |line[j..k]| == k - j;
  }

  lemma CutHasBullet(line: string, dash: nat, j: nat, k: nat, q: nat)
    requires dash + 1 < j <= k <= q <= |line| && line[dash] == '-'
    requires (forall i :: 0 <= i < dash ==> In(line[i], Space)) && forall i :: dash + 1 <= i < j ==> In(line[i], Space)
    ensures HasBullet(Cut(line, j, k, q).prefix)
  {
    hide RunEnd, Bullet;
    BulletBefore(line, dash, j);
  }

  lemma {:induction false} ParsedHasShape(line: string)
    requires Parse(line).IsNode?
    ensures Shape(line, Parse(line).node)
  {
    var dash, j, k := PartsOfNode(line);
    hide Parse, RunEnd, QuotedEnd, Bullet, Quoted, GoesOnQuoted, All, Cut, HasBullet, NameOk, In;
    CutHasBullet(line, dash, j, k, QuotedEnd(line, k));
    CutHasRole(line, j, k, QuotedEnd(line, k));
    CutHasName(line, j, k);
    CutIsExact(line, j, k, QuotedEnd(line, k));
  }

  lemma QuotedEndGoesOn(line: string, k: nat)
    requires k <= |line| && QuotedEnd(line, k) != k
    ensures GoesOnQuoted(line[k..])
  {
    hide RunEnd;
    QuotedEndGives(line, k);
    var q := QuotedEnd(line, k);
    assert line[k..][..q - k] == line[k..q];
  }

  /** Parsing finds the places where spaces, dash, spaces and word end. */
  lemma ParsesAt(line: string, dash: nat, j: nat, k: nat)
    requires dash + 1 < j < k <= |line| && line[dash] == '-'
    requires (forall i :: 0 <= i < dash ==> In(line[i], Space)) && forall i :: dash + 1 <= i < j ==> In(line[i], Space)
    requires (forall i :: j <= i < k ==> In(line[i], Word)) && !In(line[j], Space) && (k < |line| ==> !In(line[k], Word))
    ensures Parse(line) == IsNode(Cut(line, j, k, QuotedEnd(line, k)))
  {
    RunEndIs(line, 0, dash, Space);
    RunEndIs(line, dash + 1, j, Space);
    RunEndIs(line, j, k, Word);
    hide RunEnd, IsWord, Cut, QuotedEnd;
  }

  /** Where the parts of a line lie in it. */
  lemma SlicesAre(line: string, a: string, b: string, c: string, d: string)
    requires line == a + b + c + d
    ensures
      var j, k, q := |a|, |a| + |b|, |a| + |b| + |c|;
      q <= |line| && line[..j] == a && line[j..k] == b && line[k..q] == c && line[q..] == d
  {
  }

  lemma BulletIndices(line: string, prefix: string, before: string, after: string)
    requires Bullet(prefix, before, after) && |prefix| <= |line| && line[..|prefix|] == prefix
    ensures |before| + 1 < |prefix| && line[|before|] == '-'
    ensures forall i :: 0 <= i < |before| ==> In(line[i], Space)
    ensures forall i :: |before| + 1 <= i < |prefix| ==> In(line[i], Space)
  {
    hide IsSpace;
    assert forall i :: 0 <= i < |prefix| ==> line[i] == prefix[i];
    assert forall i :: 0 <= i < |before| ==> prefix[i] == before[i];
    assert forall i :: |before| + 1 <= i < |prefix| ==> prefix[i] == after[i - |before| - 1];
  }

  lemma RoleIndices(line: string, j: nat, k: nat)
    requires j < k <= |line| && All(line[j..k], Word)
    ensures (forall i :: j <= i < k ==> In(line[i], Word)) && !In(line[j], Space)
  {
    assert forall i :: j <= i < k ==> line[i] == line[j..k][i - j];
    assert IsWord(line[j]);
  }

  /** The quoted name of the shape is the one that parsing finds. */
  lemma QuotedPartIs(line: string, n: Node, k: nat, q: nat)
    requires k <= q <= |line| && line[k..q] == n.quoted && line[q..] == n.suffix
    requires if n.quoted == "" then n.name == "" && !GoesOnQuoted(n.suffix) else exists gap :: Quoted(n.quoted, gap, n.name)
    ensures QuotedEnd(line, k) == q
    ensures n.name == (if RunEnd(line, k, Space) + 1 < q then line[RunEnd(line, k, Space) + 1..q - 1] else "")
    ensures n.quoted != "" ==> k < |line| && !In(line[k], Word)
  {
    hide QuotedEnd, RunEnd, GoesOnQuoted;
    if n.quoted != "" {
      var gap :| Quoted(n.quoted, gap, n.name);
      QuotedIndices(line, k, q, gap, n.name);
      QuotedEndIs(line, k, q, gap, n.name);
      hide Quoted;
      assert IsSpace(line[k]);
    } else if QuotedEnd(line, k) != k {
      QuotedEndGoesOn(line, k);
    }
  }

  lemma CutIs(line: string, n: Node, j: nat, k: nat, q: nat)
    requires j <= k <= q <= |line|
    requires line[..j] == n.prefix && line[j..k] == n.role && line[k..q] == n.quoted && line[q..] == n.suffix
    requires n.name == (if RunEnd(line, k, Space) + 1 < q then line[RunEnd(line, k, Space) + 1..q - 1] else "")
    ensures Cut(line, j, k, q) == n
  {
    hide RunEnd;
  }

  lemma {:induction false} ShapeIsParsed(line: string, n: Node)
    requires Shape(line, n)
    ensures Parse(line) == IsNode(n)
  {
    hide Parse, QuotedEnd, RunEnd, Bullet, All, GoesOnQuoted, Quoted, Cut, IsWord, In;
    SlicesAre(line, n.prefix, n.role, n.quoted, n.suffix);
    var j := |n.prefix|;
    var k, q := j + |n.role|, j + |n.role| + |n.quoted|;
    var before, after :| Bullet(n.prefix, before, after);
    BulletIndices(line, n.prefix, before, after);
    RoleIndices(line, j, k);
    QuotedPartIs(line, n, k, q);
    assert n.quoted == "" && k < |line| ==> !In(line[k], Word) by { NotWordAfter(line, n, k); }
    hide Shape;
    ParsesAt(line, |before|, j, k);
    CutIs(line, n, j, k, q);
  }

  lemma NotWordAfter(line: string, n: Node, k: nat)
    requires Shape(line, n) && k == |n.prefix| + |n.role| <= |line| && line[k + |n.quoted|..] == n.suffix
    ensures n.quoted == "" && k < |line| ==> !In(line[k], Word)
  {
  }

  /** A line parses to a node exactly when it has that shape; in particular it has at most one. */
  lemma ParseExactly(line: string, n: Node)
    ensures Parse(line) == IsNode(n) <==> Shape(line, n)
  {
    hide Shape, Parse;
    if Parse(line) == IsNode(n) {
      ParsedHasShape(line);
    }
    if Shape(line, n) {
      ShapeIsParsed(line, n);
    }
  }

  /** Characters the wildcard of the annotating pattern does not match. */
  predicate IsTerminator(c: char) {
    c == '\n' || c == '\r' || c as int == 0x2028 || c as int == 0x2029
  }

  lemma TerminatorsAre(c: char)
    ensures IsTerminator(c) <==> c as int in {10, 13, 0x2028, 0x2029}
  {
  }

  predicate HasTerminator(s: string) {
    exists i :: 0 <= i < |s| && IsTerminator(s[i])
  }

  /** The line gets a reference when numbering. `skip` is the test for names to leave out. */
  predicate Eligible(line: string, skip: string -> bool) {
    && Parse(line).IsNode?
    && var n := Parse(line).node;
       !(n.name != "" && skip(n.name)) && Lower(n.role) in INTERACTIVE_ROLES
  }

  /** A line is eligible exactly when its role is interactive and its name, if it has one, is not to be left out. */
  lemma EligibleExactly(line: string, skip: string -> bool)
    ensures Eligible(line, skip) <==>
      exists n :: Shape(line, n) && Lower(n.role) in INTERACTIVE_ROLES && (n.name == "" || !skip(n.name))
  {
    hide Parse, Shape, Lower, INTERACTIVE_ROLES;
    if Parse(line).IsNode? {
      ParseExactly(line, Parse(line).node);
    }
    if n :| Shape(line, n) && Lower(n.role) in INTERACTIVE_ROLES && (n.name == "" || !skip(n.name)) {
      ParseExactly(line, n);
    }
  }

  /** The line is seen when annotating: that pattern must also reach the end of the line. */
  predicate Visible(line: string, skip: string -> bool) {
    Eligible(line, skip) && !HasTerminator(Parse(line).node.suffix)
  }

  function RoleOf(line: string): string
    requires Parse(line).IsNode?
  {
    Lower(Parse(line).node.role)
  }

  function NameOf(line: string): string
    requires Parse(line).IsNode?
  {
    Parse(line).node.name
  }

  function RefId(k: nat): string { "e" + Decimal(k) }

  function Tag(line: string, id: string): string
    requires Parse(line).IsNode?
  {
    var n := Parse(line).node;
    n.prefix + n.role + n.quoted + " [" + id + "]" + n.suffix
  }

  /** A tag goes between the quoted name and the remainder; nothing else changes. */
  lemma TagGoesBehindName(line: string, n: Node, id: string)
    requires Shape(line, n)
    ensures Parse(line).IsNode? && Tag(line, id) == n.prefix + n.role + n.quoted + " [" + id + "]" + n.suffix
  {
    hide Parse, Shape;
    ParseExactly(line, n);
  }

  // ----- keys

  function CountKey(role: string, name: string): string { role + ":" + name }

  function Key(role: string, name: string, nth: nat): string { role + ":" + name + ":" + Decimal(nth) }

  lemma RoleHasNoColon(line: string)
    requires Parse(line).IsNode?
    ensures ':' !in RoleOf(line)
  {
    ParseIsExact(line);
    var role := Parse(line).node.role;
    forall i | 0 <= i < |role| ensures Lower(role)[i] != ':' {
      assert IsWord(role[i]);
    }
  }

  lemma CountKeyInjective(r1: string, n1: string, r2: string, n2: string)
    requires ':' !in r1 && ':' !in r2 && CountKey(r1, n1) == CountKey(r2, n2)
    ensures r1 == r2 && n1 == n2
  {
    FirstSeparator(r1, n1, r2, n2, ':');
  }

  /** The key determines role, name and occurrence, although names may contain colons. */
  lemma KeyInjective(r1: string, n1: string, k1: nat, r2: string, n2: string, k2: nat)
    requires ':' !in r1 && ':' !in r2 && Key(r1, n1, k1) == Key(r2, n2, k2)
    ensures r1 == r2 && n1 == n2 && k1 == k2
  {
    assert forall k :: ':' !in Decimal(k) by {
      forall k: nat, i | 0 <= i < |Decimal(k)| ensures Decimal(k)[i] != ':' {
        assert IsDigit(Decimal(k)[i]);
      }
    }
    LastSeparator(r1 + ":" + n1, Decimal(k1), r2 + ":" + n2, Decimal(k2), ':');
    DecimalInjective(k1, k2);
    CountKeyInjective(r1, n1, r2, n2);
  }

  // ----- what the two passes should compute

  /** What a pass counts: eligible lines, or occurrences of a role and name in either pass. */
  datatype Query =
    | AnyEligible
    | Numbered(role: string, name: string)
    | Seen(role: string, name: string)

  predicate Same(line: string, role: string, name: string) {
    Parse(line).IsNode? && RoleOf(line) == role && NameOf(line) == name
  }

  predicate Holds(q: Query, line: string, skip: string -> bool) {
    match q
    case AnyEligible => Eligible(line, skip)
    case Numbered(role, name) => Eligible(line, skip) && Same(line, role, name)
    case Seen(role, name) => Visible(line, skip) && Same(line, role, name)
  }

  ghost function CountLines(lines: seq<string>, q: Query, skip: string -> bool): nat {
    if lines == [] then 0
    else CountLines(lines[..|lines| - 1], q, skip) + if Holds(q, lines[|lines| - 1], skip) then 1 else 0
  }

  ghost function Rank(lines: seq<string>, skip: string -> bool): nat {
    CountLines(lines, AnyEligible, skip)
  }

  /** Occurrences of (role, name) among the eligible lines. */
  ghost function Occurrences(lines: seq<string>, skip: string -> bool, role: string, name: string): nat {
    CountLines(lines, Numbered(role, name), skip)
  }

  /** The same, among the lines the annotating pass sees. */
  ghost function SeenOccurrences(lines: seq<string>, skip: string -> bool, role: string, name: string): nat {
    CountLines(lines, Seen(role, name), skip)
  }

  /** The occurrence the annotating pass counts for the i-th line. */
  ghost function CountedNth(lines: seq<string>, i: nat, skip: string -> bool): nat
    requires i < |lines|
  {
    if Parse(lines[i]).IsNode? then SeenOccurrences(lines[..i], skip, RoleOf(lines[i]), NameOf(lines[i])) else 0
  }

  datatype Ref = Ref(id: string, role: string, name: string, nth: nat)

  ghost function RefsOf(lines: seq<string>, skip: string -> bool): seq<Ref> {
    if lines == [] then []
    else
      var before := lines[..|lines| - 1];
      var last := lines[|lines| - 1];
      var refs := RefsOf(before, skip);
      if |refs| < MAX_SNAPSHOT_NODES && Eligible(last, skip) then
        refs + [Ref(RefId(|refs| + 1), RoleOf(last), NameOf(last), Occurrences(before, skip, RoleOf(last), NameOf(last)))]
      else refs
  }

  /** The promise: the k-th eligible line carries `[ek]`, up to 500, and nothing else changes. */
  ghost function ExpectedLine(lines: seq<string>, i: nat, skip: string -> bool): string
    requires i < |lines|
  {
    if Eligible(lines[i], skip) && Rank(lines[..i], skip) < MAX_SNAPSHOT_NODES
    then Tag(lines[i], RefId(Rank(lines[..i], skip) + 1))
    else lines[i]
  }

  ghost predicate Expected(lines: seq<string>, out: seq<string>, skip: string -> bool) {
    |out| == |lines| && forall i :: 0 <= i < |lines| ==> out[i] == ExpectedLine(lines, i, skip)
  }

  // ----- the numbering pass

  function QueryFor(seen: bool, role: string, name: string): Query {
    if seen then Seen(role, name) else Numbered(role, name)
  }

  /** `counts` holds the occurrences in `lines` under their count keys. */
  ghost predicate Counts(counts: map<string, nat>, lines: seq<string>, skip: string -> bool, seen: bool) {
    forall role, name {:trigger CountKey(role, name)} :: ':' !in role ==>
      CountLines(lines, QueryFor(seen, role, name), skip)
      == if CountKey(role, name) in counts then counts[CountKey(role, name)] else 0
  }

  function Occurred(counts: map<string, nat>, line: string): nat
    requires Parse(line).IsNode?
  {
    var key := CountKey(RoleOf(line), NameOf(line));
    if key in counts then counts[key] else 0
  }

  /** Whether the pass counts this line. */
  predicate Takes(line: string, skip: string -> bool, seen: bool) {
    if seen then Visible(line, skip) else Eligible(line, skip)
  }

  lemma CountsStep(counts: map<string, nat>, lines: seq<string>, i: nat, skip: string -> bool, seen: bool)
    requires i < |lines| && Counts(counts, lines[..i], skip, seen) && Takes(lines[i], skip, seen)
    ensures Occurred(counts, lines[i]) == CountLines(lines[..i], QueryFor(seen, RoleOf(lines[i]), NameOf(lines[i])), skip)
    ensures Counts(counts[CountKey(RoleOf(lines[i]), NameOf(lines[i])) := Occurred(counts, lines[i]) + 1],
                   lines[..i + 1], skip, seen)
  {
    var line := lines[i];
    RoleHasNoColon(line);
    var key := CountKey(RoleOf(line), NameOf(line));
    var counts' := counts[key := Occurred(counts, line) + 1];
    forall role, name {:trigger CountKey(role, name)} | ':' !in role
      ensures CountLines(lines[..i + 1], QueryFor(seen, role, name), skip)
        == if CountKey(role, name) in counts' then counts'[CountKey(role, name)] else 0
    {
      CountLinesSnoc(lines, i, QueryFor(seen, role, name), skip);
      if CountKey(role, name) == key {
        CountKeyInjective(role, name, RoleOf(line), NameOf(line));
      }
    }
  }

  lemma CountsIdle(counts: map<string, nat>, lines: seq<string>, i: nat, skip: string -> bool, seen: bool)
    requires i < |lines| && Counts(counts, lines[..i], skip, seen) && !Takes(lines[i], skip, seen)
    ensures Counts(counts, lines[..i + 1], skip, seen)
  {
    forall role, name {:trigger CountKey(role, name)} | ':' !in role
      ensures CountLines(lines[..i + 1], QueryFor(seen, role, name), skip)
        == if CountKey(role, name) in counts then counts[CountKey(role, name)] else 0
    {
      CountLinesSnoc(lines, i, QueryFor(seen, role, name), skip);
    }
  }

  /** Reads the occurrence of a counted line and adds one to it; other lines leave the counts alone. */
  method CountLine(counts: map<string, nat>, lines: seq<string>, i: nat, skip: string -> bool, seen: bool)
    returns (nth: nat, counts': map<string, nat>)
    requires i < |lines| && Counts(counts, lines[..i], skip, seen)
    ensures Takes(lines[i], skip, seen) ==>
      nth == CountLines(lines[..i], QueryFor(seen, RoleOf(lines[i]), NameOf(lines[i])), skip)
    ensures Counts(counts', lines[..i + 1], skip, seen)
  {
    if Takes(lines[i], skip, seen) {
      nth := Occurred(counts, lines[i]);
      counts' := counts[CountKey(RoleOf(lines[i]), NameOf(lines[i])) := nth + 1];
      CountsStep(counts, lines, i, skip, seen);
    } else {
      nth, counts' := 0, counts;
      CountsIdle(counts, lines, i, skip, seen);
    }
  }

  lemma CountLinesSnoc(lines: seq<string>, i: nat, q: Query, skip: string -> bool)
    requires i < |lines|
    ensures CountLines(lines[..i + 1], q, skip) == CountLines(lines[..i], q, skip) + if Holds(q, lines[i], skip) then 1 else 0
  {
    assert lines[..i + 1][..i] == lines[..i];
  }

  lemma RefsSnoc(lines: seq<string>, i: nat, skip: string -> bool)
    requires i < |lines|
    ensures RefsOf(lines[..i + 1], skip) ==
      var refs := RefsOf(lines[..i], skip);
      if |refs| < MAX_SNAPSHOT_NODES && Eligible(lines[i], skip) then
        refs + [Ref(RefId(|refs| + 1), RoleOf(lines[i]), NameOf(lines[i]),
                    Occurrences(lines[..i], skip, RoleOf(lines[i]), NameOf(lines[i])))]
      else refs
  {
    assert lines[..i + 1][..i] == lines[..i];
  }

  lemma {:induction false} FullStaysFull(lines: seq<string>, i: nat, skip: string -> bool)
    requires i <= |lines| && |RefsOf(lines[..i], skip)| >= MAX_SNAPSHOT_NODES
    ensures RefsOf(lines, skip) == RefsOf(lines[..i], skip)
    decreases |lines| - i
  {
    if i == |lines| {
      assert lines[..i] == lines;
    } else {
      RefsSnoc(lines, i, skip);
      FullStaysFull(lines, i + 1, skip);
    }
  }

  method BuildRefs(lines: seq<string>, skip: string -> bool) returns (refs: seq<Ref>)
    ensures refs == RefsOf(lines, skip)
  {
    hide Parse;
    refs := [];
    var refCounter := 1;
    var seenCounts: map<string, nat> := map[];
    var i := 0;
    while i < |lines|
      invariant 0 <= i <= |lines|
      invariant refs == RefsOf(lines[..i], skip) && refCounter == |refs| + 1 <= MAX_SNAPSHOT_NODES + 1
      invariant Counts(seenCounts, lines[..i], skip, false)
    {
      if refCounter > MAX_SNAPSHOT_NODES {
        FullStaysFull(lines, i, skip);
        return;
      }
      RefsSnoc(lines, i, skip);
      var nth;
      nth, seenCounts := CountLine(seenCounts, lines, i, skip, false);
      if Eligible(lines[i], skip) {
        refs := refs + [Ref(RefId(refCounter), RoleOf(lines[i]), NameOf(lines[i]), nth)];
        refCounter := refCounter + 1;
      }
      i := i + 1;
    }
    assert lines[..|lines|] == lines;
  }

  // ----- facts about the references

  ghost function Min(a: int, b: int): int { if a < b then a else b }

  lemma {:induction false} RefsLength(lines: seq<string>, skip: string -> bool)
    ensures |RefsOf(lines, skip)| == Min(MAX_SNAPSHOT_NODES, Rank(lines, skip))
  {
    if lines != [] {
      RefsLength(lines[..|lines| - 1], skip);
    }
  }

  lemma {:induction false} RefsPrefix(lines: seq<string>, i: nat, skip: string -> bool)
    requires i <= |lines|
    ensures RefsOf(lines[..i], skip) <= RefsOf(lines, skip)
    decreases |lines| - i
  {
    if i == |lines| {
      assert lines[..i] == lines;
    } else {
      RefsSnoc(lines, i, skip);
      RefsPrefix(lines, i + 1, skip);
    }
  }

  /** The reference made for the i-th line. */
  lemma RefAt(lines: seq<string>, i: nat, skip: string -> bool)
    requires i < |lines| && Eligible(lines[i], skip) && Rank(lines[..i], skip) < MAX_SNAPSHOT_NODES
    ensures
      var k := Rank(lines[..i], skip);
      && k < |RefsOf(lines, skip)|
      && RefsOf(lines, skip)[k] ==
           Ref(RefId(k + 1), RoleOf(lines[i]), NameOf(lines[i]),
               Occurrences(lines[..i], skip, RoleOf(lines[i]), NameOf(lines[i])))
  {
    RefsSnoc(lines, i, skip);
    RefsLength(lines[..i], skip);
    RefsPrefix(lines, i + 1, skip);
  }

  /** The line a reference was made for. */
  lemma {:induction false} LineOfRef(lines: seq<string>, k: nat, skip: string -> bool) returns (i: nat)
    requires k < |RefsOf(lines, skip)|
    ensures i < |lines| && Eligible(lines[i], skip) && Rank(lines[..i], skip) == k < MAX_SNAPSHOT_NODES
    decreases |lines|
  {
    var n := |lines| - 1;
    RefsLength(lines[..n], skip);
    if k < |RefsOf(lines[..n], skip)| {
      i := LineOfRef(lines[..n], k, skip);
      assert lines[..n][..i] == lines[..i];
    } else {
      i := n;
    }
  }

  lemma {:induction false} CountLinesMonotone(lines: seq<string>, i: nat, j: nat, q: Query, skip: string -> bool)
    requires i <= j <= |lines|
    ensures CountLines(lines[..i], q, skip) <= CountLines(lines[..j], q, skip)
    ensures i < j && Holds(q, lines[i], skip) ==> CountLines(lines[..i], q, skip) < CountLines(lines[..j], q, skip)
    decreases j - i
  {
    if i < j {
      CountLinesSnoc(lines, i, q, skip);
      CountLinesMonotone(lines, i + 1, j, q, skip);
    }
  }

  /** No two references agree on role, name and occurrence. */
  lemma RefsDistinct(lines: seq<string>, skip: string -> bool, a: nat, b: nat)
    requires a < b < |RefsOf(lines, skip)|
    ensures
      var x, y := RefsOf(lines, skip)[a], RefsOf(lines, skip)[b];
      !(x.role == y.role && x.name == y.name && x.nth == y.nth)
  {
    var i := LineOfRef(lines, a, skip);
    var j := LineOfRef(lines, b, skip);
    RefAt(lines, i, skip);
    RefAt(lines, j, skip);
    if j <= i {
      CountLinesMonotone(lines, j, i, AnyEligible, skip);
    }
    var role, name := RoleOf(lines[i]), NameOf(lines[i]);
    CountLinesMonotone(lines, i, j, Numbered(role, name), skip);
  }

  // ----- the annotating pass

  ghost predicate Names(r: Ref, role: string, name: string, nth: nat) {
    r.role == role && r.name == name && r.nth == nth
  }

  ghost predicate Distinct(refs: seq<Ref>) {
    && (forall k :: 0 <= k < |refs| ==> ':' !in refs[k].role)
    && forall a, b :: 0 <= a < b < |refs| ==> !Names(refs[b], refs[a].role, refs[a].name, refs[a].nth)
  }

  /** What the pass writes on one line, given the occurrence it counted. */
  ghost predicate Written(line: string, out: string, refs: seq<Ref>, skip: string -> bool, nth: nat) {
    if !Visible(line, skip) then out == line
    else
      && (forall k :: 0 <= k < |refs| && Names(refs[k], RoleOf(line), NameOf(line), nth) ==> out == Tag(line, refs[k].id))
      && ((forall k :: 0 <= k < |refs| ==> !Names(refs[k], RoleOf(line), NameOf(line), nth)) ==> out == line)
  }

  function KeyOf(r: Ref): string { Key(r.role, r.name, r.nth) }

  ghost predicate Indexes(refsByKey: map<string, string>, refs: seq<Ref>) {
    && (forall k :: 0 <= k < |refs| ==> KeyOf(refs[k]) in refsByKey && refsByKey[KeyOf(refs[k])] == refs[k].id)
    && forall key :: key in refsByKey ==> exists k :: 0 <= k < |refs| && KeyOf(refs[k]) == key
  }

  method IndexRefs(refs: seq<Ref>) returns (refsByKey: map<string, string>)
    requires Distinct(refs)
    ensures Indexes(refsByKey, refs)
  {
    refsByKey := map[];
    for i := 0 to |refs|
      invariant forall k :: 0 <= k < i ==> KeyOf(refs[k]) in refsByKey && refsByKey[KeyOf(refs[k])] == refs[k].id
      invariant forall key :: key in refsByKey ==> exists k :: 0 <= k < i && KeyOf(refs[k]) == key
    {
      forall k | 0 <= k < i ensures KeyOf(refs[k]) != KeyOf(refs[i]) {
        if KeyOf(refs[k]) == KeyOf(refs[i]) {
          KeyInjective(refs[k].role, refs[k].name, refs[k].nth, refs[i].role, refs[i].name, refs[i].nth);
        }
      }
      refsByKey := refsByKey[KeyOf(refs[i]) := refs[i].id];
    }
  }

  /** One line of the annotating pass, at the occurrence `nth` of its role and name. */
  method AnnotateLine(line: string, nth: nat, refsByKey: map<string, string>, skip: string -> bool, ghost refs: seq<Ref>)
    returns (written: string)
    requires Distinct(refs) && Indexes(refsByKey, refs)
    ensures Written(line, written, refs, skip, nth)
  {
    if !Visible(line, skip) {
      return line;
    }
    RoleHasNoColon(line);
    LookUpIsExact(refs, RoleOf(line), NameOf(line), nth);
    var key := Key(RoleOf(line), NameOf(line), nth);
    written := if key in refsByKey then Tag(line, refsByKey[key]) else line;
  }

  lemma NothingCounted(lines: seq<string>, skip: string -> bool)
    ensures Counts(map[], lines[..0], skip, true)
  {
  }

  method Annotate(lines: seq<string>, refs: seq<Ref>, skip: string -> bool) returns (out: seq<string>)
    requires Distinct(refs)
    ensures |out| == |lines|
    ensures forall i :: 0 <= i < |lines| ==> Written(lines[i], out[i], refs, skip, CountedNth(lines, i, skip))
  {
    hide Parse, INTERACTIVE_ROLES, Lower, Tag, KeyOf, CountLines;
    var refsByKey := IndexRefs(refs);
    var annotationCounts: map<string, nat> := map[];
    NothingCounted(lines, skip);
    out := [];
    for i := 0 to |lines|
      invariant |out| == i
      invariant forall j :: 0 <= j < i ==> Written(lines[j], out[j], refs, skip, CountedNth(lines, j, skip))
      invariant Counts(annotationCounts, lines[..i], skip, true)
    {
      var nth;
      nth, annotationCounts := CountLine(annotationCounts, lines, i, skip, true);
      var written := AnnotateLine(lines[i], nth, refsByKey, skip, refs);
      assert Written(lines[i], written, refs, skip, CountedNth(lines, i, skip));
      out := out + [written];
    }
  }

  /** A stored key equals the one looked up only for the reference meant. */
  lemma LookUpIsExact(refs: seq<Ref>, role: string, name: string, nth: nat)
    requires Distinct(refs) && ':' !in role
    ensures forall k :: 0 <= k < |refs| ==> (KeyOf(refs[k]) == Key(role, name, nth) <==> Names(refs[k], role, name, nth))
  {
    forall k | 0 <= k < |refs| && KeyOf(refs[k]) == Key(role, name, nth) ensures Names(refs[k], role, name, nth) {
      KeyInjective(refs[k].role, refs[k].name, refs[k].nth, role, name, nth);
    }
  }

  // ----- the two passes agree

  /** An eligible line within the first 500 that the annotating pattern cannot match. */
  ghost predicate Broken(lines: seq<string>, i: nat, skip: string -> bool)
    requires i < |lines|
  {
    && Eligible(lines[i], skip) && Rank(lines[..i], skip) < MAX_SNAPSHOT_NODES
    && HasTerminator(Parse(lines[i]).node.suffix)
  }

  ghost predicate NoneBroken(lines: seq<string>, skip: string -> bool) {
    forall i :: 0 <= i < |lines| ==> !Broken(lines, i, skip)
  }

  /** Up to the first 500 eligible lines both passes count the same. */
  lemma {:induction false} CountsAgree(lines: seq<string>, i: nat, skip: string -> bool, role: string, name: string)
    requires NoneBroken(lines, skip) && i <= |lines|
    requires Rank(lines[..i], skip) <= MAX_SNAPSHOT_NODES
    ensures SeenOccurrences(lines[..i], skip, role, name) == Occurrences(lines[..i], skip, role, name)
    decreases i
  {
    if i > 0 {
      var n := i - 1;
      CountLinesSnoc(lines, n, AnyEligible, skip);
      CountLinesSnoc(lines, n, Numbered(role, name), skip);
      CountLinesSnoc(lines, n, Seen(role, name), skip);
      CountsAgree(lines, n, skip, role, name);
      assert !Broken(lines, n, skip);
    }
  }

  /** The place where the 500th reference has been made. */
  lemma {:induction false} CutOff(lines: seq<string>, i: nat, skip: string -> bool) returns (c: nat)
    requires i <= |lines| && Rank(lines[..i], skip) >= MAX_SNAPSHOT_NODES
    ensures c <= i && Rank(lines[..c], skip) == MAX_SNAPSHOT_NODES
    decreases i
  {
    c := i;
    if Rank(lines[..i], skip) > MAX_SNAPSHOT_NODES {
      CountLinesSnoc(lines, i - 1, AnyEligible, skip);
      c := CutOff(lines, i - 1, skip);
    }
  }

  /** A line past the 500th reference never finds a key, whatever it counted. */
  lemma PastTheCutOff(lines: seq<string>, i: nat, skip: string -> bool, k: nat)
    requires NoneBroken(lines, skip) && i < |lines| && Eligible(lines[i], skip)
    requires Rank(lines[..i], skip) >= MAX_SNAPSHOT_NODES && k < |RefsOf(lines, skip)|
    ensures !Names(RefsOf(lines, skip)[k], RoleOf(lines[i]), NameOf(lines[i]),
                   SeenOccurrences(lines[..i], skip, RoleOf(lines[i]), NameOf(lines[i])))
  {
    var role, name := RoleOf(lines[i]), NameOf(lines[i]);
    var c := CutOff(lines, i, skip);
    var j := LineOfRef(lines, k, skip);
    RefAt(lines, j, skip);
    if c <= j {
      CountLinesMonotone(lines, c, j, AnyEligible, skip);
    }
    CountLinesMonotone(lines, j, c, Numbered(role, name), skip);
    CountsAgree(lines, c, skip, role, name);
    CountLinesMonotone(lines, c, i, Seen(role, name), skip);
  }

  lemma RefsAreDistinct(lines: seq<string>, skip: string -> bool)
    ensures Distinct(RefsOf(lines, skip))
  {
    var refs := RefsOf(lines, skip);
    forall k | 0 <= k < |refs| ensures ':' !in refs[k].role {
      var i := LineOfRef(lines, k, skip);
      RefAt(lines, i, skip);
      RoleHasNoColon(lines[i]);
    }
    forall a, b | 0 <= a < b < |refs| ensures !Names(refs[b], refs[a].role, refs[a].name, refs[a].nth) {
      RefsDistinct(lines, skip, a, b);
    }
  }

  lemma LineAgrees(lines: seq<string>, i: nat, out: string, skip: string -> bool)
    requires NoneBroken(lines, skip) && i < |lines|
    requires Written(lines[i], out, RefsOf(lines, skip), skip, CountedNth(lines, i, skip))
    ensures out == ExpectedLine(lines, i, skip)
  {
    hide Parse, INTERACTIVE_ROLES, Lower, Tag, CountLines, RefsOf;
    if Eligible(lines[i], skip) {
      var role, name := RoleOf(lines[i]), NameOf(lines[i]);
      if Rank(lines[..i], skip) < MAX_SNAPSHOT_NODES {
        assert !Broken(lines, i, skip);
        RefAt(lines, i, skip);
        CountsAgree(lines, i, skip, role, name);
      } else {
        forall k | 0 <= k < |RefsOf(lines, skip)|
          ensures !Names(RefsOf(lines, skip)[k], role, name, SeenOccurrences(lines[..i], skip, role, name))
        {
          PastTheCutOff(lines, i, skip, k);
        }
      }
    }
  }

  lemma TagChanges(line: string, id: string)
    requires Parse(line).IsNode?
    ensures Tag(line, id) != line
  {
    ParseIsExact(line);
    var n := Parse(line).node;
    assert |Tag(line, id)| == |n.prefix| + |n.role| + |n.quoted| + 3 + |id| + |n.suffix|;
  }

  lemma AgreementIsExact(lines: seq<string>, out: seq<string>, skip: string -> bool)
    requires |out| == |lines|
    requires forall i :: 0 <= i < |lines| ==>
      Written(lines[i], out[i], RefsOf(lines, skip), skip, CountedNth(lines, i, skip))
    ensures Expected(lines, out, skip) <==> NoneBroken(lines, skip)
  {
    if NoneBroken(lines, skip) {
      forall i | 0 <= i < |lines| ensures out[i] == ExpectedLine(lines, i, skip) {
        LineAgrees(lines, i, out[i], skip);
      }
    } else {
      var i :| 0 <= i < |lines| && Broken(lines, i, skip);
      TagChanges(lines[i], RefId(Rank(lines[..i], skip) + 1));
      assert out[i] != ExpectedLine(lines, i, skip);
    }
  }

  lemma TagHasNoNewline(line: string, id: string)
    requires Parse(line).IsNode? && '\n' !in line && '\n' !in id
    ensures '\n' !in Tag(line, id)
  {
    ParseIsExact(line);
    var n := Parse(line).node;
    PartsFree(n.prefix, n.role, n.quoted, n.suffix, '\n');
  }

  lemma PartsFree(a: string, b: string, c: string, d: string, ch: char)
    requires ch !in a + b + c + d
    ensures ch !in a && ch !in b && ch !in c && ch !in d
  {
    var s := a + b + c + d;
    assert forall i :: 0 <= i < |a| ==> s[i] == a[i];
    assert forall i :: 0 <= i < |b| ==> s[|a| + i] == b[i];
    assert forall i :: 0 <= i < |c| ==> s[|a| + |b| + i] == c[i];
    assert forall i :: 0 <= i < |d| ==> s[|a| + |b| + |c| + i] == d[i];
  }

  lemma RefIdsHaveNoNewline(lines: seq<string>, skip: string -> bool, k: nat)
    requires k < |RefsOf(lines, skip)|
    ensures '\n' !in RefsOf(lines, skip)[k].id
  {
    var i := LineOfRef(lines, k, skip);
    RefAt(lines, i, skip);
    var digits := Decimal(k + 1);
    forall d | 0 <= d < |digits| ensures digits[d] != '\n' {
      assert IsDigit(digits[d]);
    }
  }

  lemma OutHasNoNewline(lines: seq<string>, i: nat, out: string, skip: string -> bool)
    requires i < |lines| && '\n' !in lines[i]
    requires Written(lines[i], out, RefsOf(lines, skip), skip, CountedNth(lines, i, skip))
    ensures '\n' !in out
  {
    var refs := RefsOf(lines, skip);
    if Visible(lines[i], skip) && out != lines[i] {
      var k :| 0 <= k < |refs| && Names(refs[k], RoleOf(lines[i]), NameOf(lines[i]), CountedNth(lines, i, skip));
      RefIdsHaveNoNewline(lines, skip, k);
      TagHasNoNewline(lines[i], refs[k].id);
    }
  }

  /**
   Numbering followed by annotating the same text. The k-th eligible line carries `[ek]`,
   up to 500, and every other line is unchanged, exactly when no line among the first 500
   eligible ones has a line terminator after its role and name.
   */
  method AnnotateSnapshot(yaml: string, skip: string -> bool) returns (annotated: string)
    ensures Expected(Split(yaml, '\n'), Split(annotated, '\n'), skip) <==> NoneBroken(Split(yaml, '\n'), skip)
  {
    var lines := Split(yaml, '\n');
    var refs := BuildRefs(lines, skip);
    RefsAreDistinct(lines, skip);
    annotated := yaml;
    ghost var out := lines;
    if yaml != "" && |refs| > 0 {
      var annotatedLines := Annotate(lines, refs, skip);
      forall i | 0 <= i < |lines| ensures '\n' !in annotatedLines[i] {
        OutHasNoNewline(lines, i, annotatedLines[i], skip);
      }
      annotated := Join(annotatedLines, '\n');
      out := annotatedLines;
      SplitJoin(out, '\n');
    } else if yaml == "" {
      EmptyTextHasNoNode();
    }
    AgreementIsExact(lines, out, skip);
  }

  /**
   The shift: after the first broken line, the next line with its role and name carries the
   reference that was meant for the broken one.
   */
  lemma BrokenLineShifts(lines: seq<string>, i: nat, j: nat, written: string, skip: string -> bool)
    requires i < j < |lines| && Broken(lines, i, skip) && NoneBroken(lines[..i], skip)
    requires Visible(lines[j], skip) && Same(lines[j], RoleOf(lines[i]), NameOf(lines[i]))
    requires forall k :: i < k < j && Visible(lines[k], skip) ==> !Same(lines[k], RoleOf(lines[i]), NameOf(lines[i]))
    requires Written(lines[j], written, RefsOf(lines, skip), skip, CountedNth(lines, j, skip))
    ensures written == Tag(lines[j], RefId(Rank(lines[..i], skip) + 1))
  {
    hide Parse, Eligible, CountLines, RefsOf, INTERACTIVE_ROLES, Lower, Tag;
    RecountAfterBroken(lines, i, j, skip);
    RefAt(lines, i, skip);
    hide Rank, CountedNth, Occurrences, RefId, HasTerminator;
    var k := Rank(lines[..i], skip);
    assert Names(RefsOf(lines, skip)[k], RoleOf(lines[j]), NameOf(lines[j]), CountedNth(lines, j, skip));
  }

  lemma RecountAfterBroken(lines: seq<string>, i: nat, j: nat, skip: string -> bool)
    requires i < j < |lines| && Broken(lines, i, skip) && NoneBroken(lines[..i], skip)
    requires Visible(lines[j], skip) && Same(lines[j], RoleOf(lines[i]), NameOf(lines[i]))
    requires forall k :: i < k < j && Visible(lines[k], skip) ==> !Same(lines[k], RoleOf(lines[i]), NameOf(lines[i]))
    ensures CountedNth(lines, j, skip) == Occurrences(lines[..i], skip, RoleOf(lines[i]), NameOf(lines[i]))
  {
    hide Parse;
    var role, name := RoleOf(lines[i]), NameOf(lines[i]);
    hide Eligible;
    assert lines[..i][..i] == lines[..i];
    CountsAgree(lines[..i], i, skip, role, name);
    CountLinesSnoc(lines, i, Seen(role, name), skip);
    hide CountLines;
    NothingBetween(lines, i + 1, j, Seen(role, name), skip);
  }

  lemma {:induction false} NothingBetween(lines: seq<string>, i: nat, j: nat, q: Query, skip: string -> bool)
    requires i <= j <= |lines| && forall k :: i <= k < j ==> !Holds(q, lines[k], skip)
    ensures CountLines(lines[..j], q, skip) == CountLines(lines[..i], q, skip)
    decreases j
  {
    if i < j {
      CountLinesSnoc(lines, j - 1, q, skip);
      NothingBetween(lines, i, j - 1, q, skip);
    }
  }

  lemma EmptyTextHasNoNode()
    ensures Parse("") == NoNode
  {
  }

  lemma {:induction false} ButtonParses(line: string)
    requires line == "- button\r" || line == "- button"
    ensures Parse(line) == IsNode(Node("- ", "button", "", "", line[8..]))
  {
    RunEndIs(line, 0, 0, Space);
    RunEndIs(line, 1, 2, Space);
    RunEndIs(line, 2, 8, Word);
    RunEndIs(line, 8, |line|, Space);
    assert QuotedEnd(line, 8) == 8;
    assert line[..2] == "- " && line[2..8] == "button" && line[8..8] == "";
  }

  lemma ButtonIsInteractive()
    ensures Lower("button") == "button" && "button" in INTERACTIVE_ROLES
  {
    assert Lower("button") == "button";
  }

  lemma ButtonSuffix(line: string)
    requires line == "- button\r" || line == "- button"
    ensures HasTerminator(line[8..]) <==> line == "- button\r"
  {
    assert line == "- button\r" ==> line[8..][0] == '\r';
  }

  lemma {:induction false} ButtonIs(line: string, skip: string -> bool)
    requires line == "- button\r" || line == "- button"
    ensures Eligible(line, skip) && RoleOf(line) == "button" && NameOf(line) == ""
    ensures HasTerminator(Parse(line).node.suffix) <==> line == "- button\r"
  {
    ButtonParses(line);
    ButtonIsInteractive();
    ButtonSuffix(line);
    hide Parse, Lower, HasTerminator, INTERACTIVE_ROLES;
  }

  lemma {:induction false} ButtonTag(line: string, id: string)
    requires line == "- button"
    ensures Parse(line).IsNode? && Tag(line, id) == "- button [" + id + "]"
  {
    ButtonParses(line);
    hide Parse;
    assert line[8..] == "";
    assert "- " + "button" + "" + " [" == "- button [";
  }

  /** A carriage return after the role is such a line: numbered, but not annotated; the next button gets its reference. */
  lemma {:induction false} BrokenHappens(skip: string -> bool, lines: seq<string>, written: string)
    requires lines == ["- button\r", "- button"]
    requires Written(lines[1], written, RefsOf(lines, skip), skip, CountedNth(lines, 1, skip))
    ensures Broken(lines, 0, skip)
    ensures ExpectedLine(lines, 1, skip) == "- button [e2]" && written == "- button [e1]"
  {
    hide Parse, Tag, Lower;
    ButtonIs(lines[0], skip);
    ButtonIs(lines[1], skip);
    ButtonTag(lines[1], "e1");
    ButtonTag(lines[1], "e2");
    hide Eligible, RoleOf, NameOf, Written, RefsOf, CountedNth;
    assert lines[..0] == [] && lines[..1] == [lines[0]];
    CountLinesSnoc(lines, 0, AnyEligible, skip);
    BrokenLineShifts(lines, 0, 1, written, skip);
    assert RefId(1) == "e1" && RefId(2) == "e2";
    assert "- button [" + "e1" + "]" == "- button [e1]" && "- button [" + "e2" + "]" == "- button [e2]";
  }
}
