/** `SecretRedactor` of src/build_engine/executor/stream.py. */
module Redaction {

  const TOKEN := "[REDACTED]"

  predicate OccursAt(text: string, s: string, i: nat) {
    i + |s| <= |text| && text[i..i + |s|] == s
  }

  ghost predicate Contains(text: string, s: string) {
    exists i: nat :: OccursAt(text, s, i)
  }

  // str.replace: occurrences from the left, without overlap.
  function Replace(text: string, s: string): string
    requires s != ""
  {
    if |text| < |s| then text
    else if text[..|s|] == s then TOKEN + Replace(text[|s|..], s)
    else [text[0]] + Replace(text[1..], s)
  }

  function ReplaceAll(text: string, secrets: seq<string>): string
    requires "" !in secrets
    decreases |secrets|
  {
    if secrets == [] then text else ReplaceAll(Replace(text, secrets[0]), secrets[1..])
  }

  class SecretRedactor {
    var secrets: seq<string>

    ghost predicate Valid()
      reads this
    {
      LongestFirst(secrets)
    }

    constructor (given: seq<string>)
      ensures Valid()
      ensures forall s :: s in secrets <==> s in given && s != ""
    {
      var sorted: seq<string> := [];
      for i := 0 to |given|
        invariant forall s :: s in sorted <==> s in given[..i] && s != ""
        invariant forall j, k | 0 <= j < k < |sorted| :: |sorted[j]| >= |sorted[k]| && sorted[j] != sorted[k]
      {
        var s := given[i];
        assert given[..i + 1] == given[..i] + [s];
        if s != "" && s !in sorted {
          var at := 0;
          while at < |sorted| && |sorted[at]| >= |s|
            invariant 0 <= at <= |sorted|
            invariant forall j | 0 <= j < at :: |sorted[j]| >= |s|
          {
            at := at + 1;
          }
          sorted := sorted[..at] + [s] + sorted[at..];
        }
      }
      assert given[..|given|] == given;
      secrets := sorted;
    }

    method Redact(value: string) returns (redacted: string)
      requires Valid()
      ensures redacted == ReplaceAll(value, secrets)
      ensures forall s | s in secrets && !CanOverlapToken(s) :: !Contains(redacted, s)
      ensures exists cells :: Chars(cells) == redacted && cells == ReplaceAllCells(Marked(value), secrets)
                && forall s | s in secrets :: !Survives(cells, s)
      ensures value in secrets && (forall s | s in secrets :: !Contains(TOKEN, s)) ==> redacted == TOKEN
    {
      redacted := value;
      for i := 0 to |secrets|
        invariant ReplaceAll(redacted, secrets[i..]) == ReplaceAll(value, secrets)
      {
        assert secrets[i..][1..] == secrets[i + 1..];
        redacted := Replace(redacted, secrets[i]);
      }
      assert secrets[|secrets|..] == [];
      if value in secrets && forall s | s in secrets :: !Contains(TOKEN, s) { SecretBecomesToken(secrets, value); }
      ghost var cells := ReplaceAllCells(Marked(value), secrets);
      ReplaceAllCellsChars(Marked(value), secrets);
      assert Chars(Marked(value)) == value;
      forall s | s in secrets
        ensures !Survives(cells, s)
      {
        RedactedCells(value, secrets, s);
      }
      forall s | s in secrets && !CanOverlapToken(s)
        ensures !Contains(redacted, s)
      {
        OutputIsClean(value, secrets, s);
      }
    }
  }

  // ---------- where each character of the output comes from ----------

  datatype Cell = Cell(c: char, original: bool)

  function Chars(cells: seq<Cell>): string {
    seq(|cells|, i requires 0 <= i < |cells| => cells[i].c)
  }

  function Marked(text: string): seq<Cell> {
    seq(|text|, i requires 0 <= i < |text| => Cell(text[i], true))
  }

  function TokenCells(): (cells: seq<Cell>)
    ensures |cells| == |TOKEN| && forall i | 0 <= i < |cells| :: cells[i] == Cell(TOKEN[i], false)
  {
    seq(|TOKEN|, i requires 0 <= i < |TOKEN| => Cell(TOKEN[i], false))
  }

  // Replacement that remembers the origin of every character.
  function ReplaceCells(cells: seq<Cell>, s: string): seq<Cell>
    requires s != ""
  {
    if |cells| < |s| then cells
    else if Chars(cells[..|s|]) == s then TokenCells() + ReplaceCells(cells[|s|..], s)
    else [cells[0]] + ReplaceCells(cells[1..], s)
  }

  function ReplaceAllCells(cells: seq<Cell>, secrets: seq<string>): seq<Cell>
    requires "" !in secrets
    decreases |secrets|
  {
    if secrets == [] then cells else ReplaceAllCells(ReplaceCells(cells, secrets[0]), secrets[1..])
  }

  lemma {:induction false} ReplaceCellsChars(cells: seq<Cell>, s: string)
    requires s != ""
    ensures Chars(ReplaceCells(cells, s)) == Replace(Chars(cells), s)
  {
    if |cells| >= |s| {
      CharsSplit(cells, |s|);
      if Chars(cells[..|s|]) == s {
        ReplaceCellsChars(cells[|s|..], s);
        CharsConcat(TokenCells(), ReplaceCells(cells[|s|..], s));
        assert Chars(TokenCells()) == TOKEN;
      } else {
        CharsSplit(cells, 1);
        ReplaceCellsChars(cells[1..], s);
        CharsConcat([cells[0]], ReplaceCells(cells[1..], s));
        assert Chars([cells[0]]) == [Chars(cells)[0]];
      }
    }
  }

  lemma CharsSplit(cells: seq<Cell>, k: nat)
    requires k <= |cells|
    ensures Chars(cells)[..k] == Chars(cells[..k]) && Chars(cells)[k..] == Chars(cells[k..])
  {
  }

  lemma CharsConcat(left: seq<Cell>, right: seq<Cell>)
    ensures Chars(left + right) == Chars(left) + Chars(right)
  {
  }

  /** Forgetting the marks gives the redactor's own output. */
  lemma {:induction false} ReplaceAllCellsChars(cells: seq<Cell>, secrets: seq<string>)
    requires "" !in secrets
    ensures Chars(ReplaceAllCells(cells, secrets)) == ReplaceAll(Chars(cells), secrets)
    decreases |secrets|
  {
    if secrets != [] {
      ReplaceCellsChars(cells, secrets[0]);
      ReplaceAllCellsChars(ReplaceCells(cells, secrets[0]), secrets[1..]);
    }
  }

  // A secret made of characters of the original text only.
  predicate SurvivesAt(cells: seq<Cell>, s: string, i: nat) {
    i + |s| <= |cells| && forall j | 0 <= j < |s| :: cells[i + j] == Cell(s[j], true)
  }

  ghost predicate Survives(cells: seq<Cell>, s: string) {
    exists i: nat :: SurvivesAt(cells, s, i)
  }

  // Leading original cells of the output are the leading cells of the input.
  lemma {:induction false} OriginalPrefix(cells: seq<Cell>, s: string, k: nat)
    requires s != "" && k <= |ReplaceCells(cells, s)|
    requires forall j | 0 <= j < k :: ReplaceCells(cells, s)[j].original
    ensures k <= |cells| && forall j | 0 <= j < k :: ReplaceCells(cells, s)[j] == cells[j]
  {
    if |cells| >= |s| && k > 0 {
      assert ReplaceCells(cells, s)[0].original;
      if Chars(cells[..|s|]) != s {
        var tail := ReplaceCells(cells[1..], s);
        assert forall j | 0 <= j < k - 1 :: tail[j] == ReplaceCells(cells, s)[j + 1];
        OriginalPrefix(cells[1..], s, k - 1);
      }
    }
  }

  lemma ShiftSurvivor(cells: seq<Cell>, s: string, i: nat, cut: nat)
    requires SurvivesAt(cells, s, i) && cut <= i
    ensures SurvivesAt(cells[cut..], s, i - cut)
  {
    forall j | 0 <= j < |s|
      ensures cells[cut..][i - cut + j] == Cell(s[j], true)
    {
      assert cells[cut..][i - cut + j] == cells[i + j];
    }
  }

  // What survives in the output was in the input, at the start of the output or later.
  lemma {:induction false} SurvivorWasThere(cells: seq<Cell>, gone: string, s: string, i: nat)
    requires gone != "" && s != "" && SurvivesAt(ReplaceCells(cells, gone), s, i)
    ensures Survives(cells, s) && s != gone
    decreases |cells|
  {
    var out := ReplaceCells(cells, gone);
    if |cells| < |gone| {
      assert SurvivesAt(cells, s, i);
    } else if Chars(cells[..|gone|]) == gone {
      assert out[i] == Cell(s[0], true);
      assert i >= |TOKEN|;
      ShiftSurvivor(out, s, i, |TOKEN|);
      assert out[|TOKEN|..] == ReplaceCells(cells[|gone|..], gone);
      SurvivorWasThere(cells[|gone|..], gone, s, i - |TOKEN|);
      var at: nat :| SurvivesAt(cells[|gone|..], s, at);
      assert SurvivesAt(cells, s, at + |gone|);
    } else if i > 0 {
      ShiftSurvivor(out, s, i, 1);
      assert out[1..] == ReplaceCells(cells[1..], gone);
      SurvivorWasThere(cells[1..], gone, s, i - 1);
      var at: nat :| SurvivesAt(cells[1..], s, at);
      assert SurvivesAt(cells, s, at + 1);
    } else {
      assert forall j | 0 <= j < |s| :: out[j] == Cell(s[j], true) by {
        assert forall j | 0 <= j < |s| :: out[0 + j] == Cell(s[j], true);
      }
      OriginalPrefix(cells, gone, |s|);
      assert SurvivesAt(cells, s, 0);
      assert Chars(cells[..|s|]) == s;
    }
  }

  /**
   For any text and any secrets: no secret is left in the output as an unbroken piece of
   the original text. Whatever looks like a secret there contains characters of a token.
   */
  lemma {:induction false} NoSecretSurvives(cells: seq<Cell>, secrets: seq<string>, s: string)
    requires "" !in secrets && s != ""
    requires s in secrets || !Survives(cells, s)
    ensures !Survives(ReplaceAllCells(cells, secrets), s)
    decreases |secrets|
  {
    if secrets != [] {
      var next := ReplaceCells(cells, secrets[0]);
      if Survives(next, s) {
        var i: nat :| SurvivesAt(next, s, i);
        SurvivorWasThere(cells, secrets[0], s, i);
      }
      NoSecretSurvives(next, secrets[1..], s);
    }
  }

  /** The redactor's own output is those cells without their marks, and no secret survives in them. */
  lemma RedactedCells(text: string, secrets: seq<string>, s: string)
    requires "" !in secrets && s in secrets
    ensures Chars(ReplaceAllCells(Marked(text), secrets)) == ReplaceAll(text, secrets)
    ensures !Survives(ReplaceAllCells(Marked(text), secrets), s)
  {
    assert Chars(Marked(text)) == text;
    ReplaceAllCellsChars(Marked(text), secrets);
    NoSecretSurvives(Marked(text), secrets, s);
  }

  // ---------- what the order of the secrets is for ----------

  ghost predicate LongestFirst(secrets: seq<string>) {
    && "" !in secrets
    && forall i, j | 0 <= i < j < |secrets| :: |secrets[i]| >= |secrets[j]| && secrets[i] != secrets[j]
  }

  lemma {:induction false} AbsentStays(text: string, s: string)
    requires s != "" && !Contains(text, s)
    ensures Replace(text, s) == text
  {
    var m := FirstMatch(text, s);
    assert !OccursAt(text, s, m);
  }

  lemma {:induction false} NoneOccurs(text: string, secrets: seq<string>)
    requires "" !in secrets && forall s | s in secrets :: !Contains(text, s)
    ensures ReplaceAll(text, secrets) == text
    decreases |secrets|
  {
    if secrets != [] {
      AbsentStays(text, secrets[0]);
      NoneOccurs(text, secrets[1..]);
    }
  }

  /**
   A secret by itself becomes one token and nothing else, on which only the shorter
   secrets may still act: no other secret takes a piece of it away first.
   */
  lemma {:induction false} WholeSecret(secrets: seq<string>, i: nat)
    requires LongestFirst(secrets) && i < |secrets|
    ensures ReplaceAll(secrets[i], secrets) == ReplaceAll(TOKEN, secrets[i + 1..])
    decreases |secrets|
  {
    var s := secrets[i];
    if i == 0 {
      assert s[..|s|] == s && s[|s|..] == "";
      assert Replace("", s) == "";
      assert Replace(s, s) == TOKEN + "";
      assert TOKEN + "" == TOKEN;
    } else {
      forall at: nat
        ensures !OccursAt(s, secrets[0], at)
      {
        assert s[0..|s|] == s;
      }
      AbsentStays(s, secrets[0]);
      assert secrets[1..][i - 1] == s && secrets[1..][i..] == secrets[i + 1..];
      WholeSecret(secrets[1..], i - 1);
    }
  }

  /** So every secret is redacted to exactly the token when no secret is part of the token. */
  lemma SecretBecomesToken(secrets: seq<string>, s: string)
    requires LongestFirst(secrets) && s in secrets && forall t | t in secrets :: !Contains(TOKEN, t)
    ensures ReplaceAll(s, secrets) == "[REDACTED]"
  {
    var i :| 0 <= i < |secrets| && secrets[i] == s;
    WholeSecret(secrets, i);
    NoneOccurs(TOKEN, secrets[i + 1..]);
  }

  // The characters of one stretch of the text are marked.
  function Stretch(text: string, from: nat, to: nat): seq<Cell> {
    seq(|text|, i requires 0 <= i < |text| => Cell(text[i], from <= i < to))
  }

  ghost predicate Unmarked(cells: seq<Cell>) {
    forall i | 0 <= i < |cells| :: !cells[i].original
  }

  lemma {:induction false} UnmarkedStays(cells: seq<Cell>, s: string)
    requires s != "" && Unmarked(cells)
    ensures Unmarked(ReplaceCells(cells, s))
    decreases |cells|
  {
    if |cells| >= |s| {
      if Chars(cells[..|s|]) == s {
        UnmarkedStays(cells[|s|..], s);
      } else {
        UnmarkedStays(cells[1..], s);
      }
    }
  }

  lemma {:induction false} UnmarkedToTheEnd(cells: seq<Cell>, secrets: seq<string>)
    requires "" !in secrets && Unmarked(cells)
    ensures Unmarked(ReplaceAllCells(cells, secrets))
    decreases |secrets|
  {
    if secrets != [] {
      UnmarkedStays(cells, secrets[0]);
      UnmarkedToTheEnd(ReplaceCells(cells, secrets[0]), secrets[1..]);
    }
  }

  // The occurrence at `p` is the next one that the replacement meets or lies behind the next one.
  lemma {:induction false} OccurrenceGoes(cells: seq<Cell>, s: string, p: nat)
    requires s != "" && OccursAt(Chars(cells), s, p)
    requires forall q: nat | q < p < q + |s| :: !OccursAt(Chars(cells), s, q)
    requires forall i | 0 <= i < |cells| :: cells[i].original ==> p <= i < p + |s|
    ensures Unmarked(ReplaceCells(cells, s))
    decreases |cells|
  {
    CharsSplit(cells, |s|);
    if p == 0 {
      assert Chars(cells[..|s|]) == s;
      UnmarkedStays(cells[|s|..], s);
    } else if Chars(cells[..|s|]) == s {
      assert OccursAt(Chars(cells), s, 0);
      OccurrenceBehind(cells, s, p, |s|);
    } else {
      OccurrenceBehind(cells, s, p, 1);
      assert !cells[0].original;
    }
  }

  lemma OccurrenceBehind(cells: seq<Cell>, s: string, p: nat, cut: nat)
    requires s != "" && OccursAt(Chars(cells), s, p) && 0 < cut <= p
    requires forall q: nat | q < p < q + |s| :: !OccursAt(Chars(cells), s, q)
    requires forall i | 0 <= i < |cells| :: cells[i].original ==> p <= i < p + |s|
    ensures Unmarked(ReplaceCells(cells[cut..], s))
    decreases |cells|, 0
  {
    var text, rest := Chars(cells), cells[cut..];
    CharsSplit(cells, cut);
    assert Chars(rest) == text[cut..];
    forall q: nat | cut + q + |s| <= |text|
      ensures OccursAt(Chars(rest), s, q) <==> OccursAt(text, s, cut + q)
    {
      SliceOfSlice(text, cut, |text|, q, |s|);
      assert text[cut..|text|] == text[cut..];
    }
    forall i | 0 <= i < |rest|
      ensures rest[i].original ==> p - cut <= i < p - cut + |s|
    {
      assert rest[i] == cells[cut + i];
    }
    OccurrenceGoes(rest, s, p - cut);
  }

  /**
   An occurrence of a secret that no earlier occurrence of it runs into, in a text without
   longer secrets, leaves none of its characters in the output.
   */
  lemma ClearOccurrenceGoes(text: string, secrets: seq<string>, i: nat, p: nat)
    requires LongestFirst(secrets) && i < |secrets| && OccursAt(text, secrets[i], p)
    requires forall j | 0 <= j < i :: !Contains(text, secrets[j])
    requires forall q: nat | q < p < q + |secrets[i]| :: !OccursAt(text, secrets[i], q)
    ensures Chars(Stretch(text, p, p + |secrets[i]|)) == text
    ensures Chars(ReplaceAllCells(Stretch(text, p, p + |secrets[i]|), secrets)) == ReplaceAll(text, secrets)
    ensures Unmarked(ReplaceAllCells(Stretch(text, p, p + |secrets[i]|), secrets))
  {
    var cells := Stretch(text, p, p + |secrets[i]|);
    assert Chars(cells) == text;
    ReplaceAllCellsChars(cells, secrets);
    ClearCellsGo(cells, secrets, i, p);
  }

  lemma {:induction false} ClearCellsGo(cells: seq<Cell>, secrets: seq<string>, i: nat, p: nat)
    requires LongestFirst(secrets) && i < |secrets| && OccursAt(Chars(cells), secrets[i], p)
    requires forall j | 0 <= j < i :: !Contains(Chars(cells), secrets[j])
    requires forall q: nat | q < p < q + |secrets[i]| :: !OccursAt(Chars(cells), secrets[i], q)
    requires forall k | 0 <= k < |cells| :: cells[k].original ==> p <= k < p + |secrets[i]|
    ensures Unmarked(ReplaceAllCells(cells, secrets))
    decreases |secrets|
  {
    if i == 0 {
      OccurrenceGoes(cells, secrets[0], p);
      UnmarkedToTheEnd(ReplaceCells(cells, secrets[0]), secrets[1..]);
    } else {
      AbsentCellsStay(cells, secrets[0]);
      assert forall j | 0 <= j < i - 1 :: secrets[1..][j] == secrets[j + 1];
      ClearCellsGo(cells, secrets[1..], i - 1, p);
    }
  }

  lemma {:induction false} AbsentCellsStay(cells: seq<Cell>, s: string)
    requires s != "" && !Contains(Chars(cells), s)
    ensures ReplaceCells(cells, s) == cells
    decreases |cells|
  {
    if |cells| >= |s| {
      CharsSplit(cells, |s|);
      assert !OccursAt(Chars(cells), s, 0);
      CharsSplit(cells, 1);
      if Contains(Chars(cells[1..]), s) { LaterOccurrence(Chars(cells), 1, s); }
      AbsentCellsStay(cells[1..], s);
    }
  }

  // ---------- when nothing that looks like a secret is left ----------

  // Some placement of `s` over a token agrees wherever both have a character.
  ghost predicate CanOverlapToken(s: string) {
    exists d: int :: Agrees(s, d)
  }

  ghost predicate Agrees(s: string, d: int) {
    && -|TOKEN| < d < |s|
    && forall j | 0 <= j < |TOKEN| && 0 <= d + j < |s| :: s[d + j] == TOKEN[j]
  }

  // An occurrence at `i` that shares a position with a token at `p`.
  lemma OverlapAgrees(out: string, s: string, i: nat, p: nat)
    requires OccursAt(out, s, i) && OccursAt(out, TOKEN, p)
    requires p < i + |s| && i < p + |TOKEN|
    ensures CanOverlapToken(s)
  {
    var d := p - i;
    forall j | 0 <= j < |TOKEN| && 0 <= d + j < |s|
      ensures s[d + j] == TOKEN[j]
    {
      assert out[i..i + |s|][d + j] == out[p + j] == out[p..p + |TOKEN|][j];
    }
    assert Agrees(s, d);
  }

  lemma {:induction false} OccurrenceWasThere(text: string, gone: string, s: string, i: nat)
    requires gone != "" && s != "" && !CanOverlapToken(s) && OccursAt(Replace(text, gone), s, i)
    ensures Contains(text, s) && s != gone
    decreases |text|
  {
    var m := FirstMatch(text, gone);
    if OccursAt(text, gone, m) {
      var front, tail := text[..m] + TOKEN, Replace(text[m + |gone|..], gone);
      TokenBetween(text[..m], tail);
      if i >= |front| {
        TailOccurrence(front, tail, s, i);
        OccurrenceWasThere(text[m + |gone|..], gone, s, i - |front|);
        LaterOccurrence(text, m + |gone|, s);
      } else if i + |s| <= m {
        FrontOccurrence(text, front + tail, s, m, i);
      } else {
        OverlapAgrees(front + tail, s, i, m);
      }
    }
  }

  lemma LaterOccurrence(text: string, k: nat, s: string)
    requires k <= |text| && Contains(text[k..], s)
    ensures Contains(text, s)
  {
    var at: nat :| OccursAt(text[k..], s, at);
    assert text[k..][at..at + |s|] == text[k + at..k + at + |s|];
    assert OccursAt(text, s, k + at);
  }

  /** The output contains no secret that cannot overlap a token: no later replacement recreates an earlier secret. */
  lemma {:induction false} OutputIsClean(text: string, secrets: seq<string>, s: string)
    requires "" !in secrets && s != "" && !CanOverlapToken(s)
    requires s in secrets || !Contains(text, s)
    ensures !Contains(ReplaceAll(text, secrets), s)
    decreases |secrets|
  {
    if secrets != [] {
      var next := Replace(text, secrets[0]);
      if Contains(next, s) {
        var i: nat :| OccursAt(next, s, i);
        OccurrenceWasThere(text, secrets[0], s, i);
      }
      OutputIsClean(next, secrets[1..], s);
    }
  }

  /** A secret that shares no character with the token cannot overlap it. */
  lemma ForeignSecret(s: string)
    requires s != "" && forall c | c in s :: c !in TOKEN
    ensures !CanOverlapToken(s)
  {
    forall d: int
      ensures !Agrees(s, d)
    {
      if -|TOKEN| < d < |s| {
        var j := if d < 0 then -d else 0;
        assert s[d + j] in s && TOKEN[j] in TOKEN;
        assert s[d + j] != TOKEN[j];
      }
    }
  }

  /** The condition is needed: every part of the token, taken as a secret, is in the output of its own redaction. */
  lemma PartOfTokenStays(s: string)
    requires s != "" && Contains(TOKEN, s)
    ensures CanOverlapToken(s) && Contains(ReplaceAll(s, [s]), s)
  {
    assert s[..|s|] == s && s[|s|..] == "";
    assert Replace("", s) == "";
    assert Replace(s, s) == TOKEN + "";
    assert ReplaceAll(s, [s]) == ReplaceAll(TOKEN + "", []);
    assert TOKEN + "" == TOKEN;
    var i: nat :| OccursAt(TOKEN, s, i);
    assert TOKEN[0..|TOKEN|] == TOKEN;
    OverlapAgrees(TOKEN, s, i, 0);
  }

  // ---------- exactly which secrets can come back ----------

  // The secret starts with the end of a token.
  ghost predicate StartsInToken(s: string) {
    exists q :: 1 <= q <= |TOKEN| && q < |s| && s[..q] == TOKEN[|TOKEN| - q..]
  }

  // From its k-th character on, the secret agrees with a token that starts there.
  predicate MeetsToken(s: string, k: nat) {
    k < |s| && forall j | k <= j < |s| && j - k < |TOKEN| :: s[j] == TOKEN[j - k]
  }

  // In s[..k] + s, the first occurrence of s is the one at k.
  ghost predicate FirstAt(s: string, k: nat)
    requires k <= |s|
  {
    forall j: nat | j < k :: !OccursAt(s[..k] + s, s, j)
  }

  /** A token put in the place of the secret can complete the secret again. */
  ghost predicate Restorable(s: string) {
    || Contains(TOKEN, s)
    || StartsInToken(s)
    || exists k :: 1 <= k < |s| && MeetsToken(s, k) && FirstAt(s, k)
  }

  // Replacement up to and including the first occurrence, at `m`.
  lemma FirstMatch(text: string, s: string) returns (m: nat)
    requires s != ""
    ensures m <= |text| && forall j: nat | j < m :: !OccursAt(text, s, j)
    ensures if OccursAt(text, s, m)
            then Replace(text, s) == text[..m] + TOKEN + Replace(text[m + |s|..], s)
            else Replace(text, s) == text && forall j: nat :: !OccursAt(text, s, j)
  {
    m := FirstOccurrence(text, s);
    if OccursAt(text, s, m) {
      MatchHere(text, s, m);
    } else {
      NoMatch(text, s, m);
    }
  }

  lemma FirstOccurrence(text: string, s: string) returns (m: nat)
    requires s != ""
    ensures m <= |text| && forall j: nat | j < m :: !OccursAt(text, s, j)
    ensures OccursAt(text, s, m) || |text| < m + |s|
  {
    m := 0;
    while m + |s| <= |text| && !OccursAt(text, s, m)
      invariant m <= |text| && forall j: nat | j < m :: !OccursAt(text, s, j)
    {
      m := m + 1;
    }
  }

  lemma NoMatch(text: string, s: string, m: nat)
    requires s != "" && m <= |text| < m + |s| && forall j: nat | j < m :: !OccursAt(text, s, j)
    ensures Replace(text, s) == text && forall j: nat :: !OccursAt(text, s, j)
  {
    SkipsTo(text, s, m);
    ShortRest(text, s, m);
  }

  lemma ShortRest(text: string, s: string, m: nat)
    requires s != "" && m <= |text| < m + |s|
    ensures text[..m] + Replace(text[m..], s) == text
  {
    var rest := text[m..];
    assert |rest| < |s|;
    assert Replace(rest, s) == rest;
    assert text == text[..m] + rest;
  }

  lemma {:induction false} SkipsTo(text: string, s: string, m: nat)
    requires s != "" && m <= |text| && forall j: nat | j < m :: !OccursAt(text, s, j)
    ensures Replace(text, s) == text[..m] + Replace(text[m..], s)
  {
    if m == 0 {
      assert text[0..] == text;
    } else {
      SkipsTo(text, s, m - 1);
      var rest := text[m - 1..];
      SkipOne(text, s, m - 1);
      assert rest[1..] == text[m..] && text[..m] == text[..m - 1] + [rest[0]];
      Regroup(text[..m - 1], rest[0], Replace(text[m..], s));
    }
  }

  lemma Regroup(front: string, c: char, back: string)
    ensures front + ([c] + back) == front + [c] + back
  {
  }

  lemma SkipOne(text: string, s: string, m: nat)
    requires s != "" && m < |text| && !OccursAt(text, s, m)
    ensures Replace(text[m..], s) == [text[m]] + Replace(text[m..][1..], s)
  {
    var rest := text[m..];
    if |rest| >= |s| {
      assert rest[..|s|] == text[m..m + |s|];
    } else {
      assert rest == [rest[0]] + rest[1..];
    }
  }

  lemma MatchHere(text: string, s: string, m: nat)
    requires s != "" && OccursAt(text, s, m) && forall j: nat | j < m :: !OccursAt(text, s, j)
    ensures Replace(text, s) == text[..m] + TOKEN + Replace(text[m + |s|..], s)
  {
    SkipsTo(text, s, m);
    var rest := text[m..];
    assert rest[..|s|] == text[m..m + |s|] && rest[|s|..] == text[m + |s|..];
  }

  lemma SliceOfSlice(text: string, lo: nat, hi: nat, j: nat, n: nat)
    requires lo <= hi <= |text| && j + n <= hi - lo
    ensures text[lo..hi][j..j + n] == text[lo + j..lo + j + n]
  {
    var left, right := text[lo..hi][j..j + n], text[lo + j..lo + j + n];
    assert |left| == |right|;
    forall i | 0 <= i < n
      ensures left[i] == right[i]
    {
      assert left[i] == text[lo..hi][j + i];
    }
  }

  lemma {:induction false} LeftoverIsRestorable(text: string, s: string, i: nat)
    requires s != "" && OccursAt(Replace(text, s), s, i)
    ensures Restorable(s)
    decreases |text|
  {
    var m := FirstMatch(text, s);
    var front, tail := text[..m] + TOKEN, Replace(text[m + |s|..], s);
    if i >= |front| {
      TailOccurrence(front, tail, s, i);
      LeftoverIsRestorable(text[m + |s|..], s, i - |front|);
    } else if i >= m {
      LeftoverInToken(text[..m], tail, s, i);
    } else {
      TokenBetween(text[..m], tail);
      LeftoverBeforeToken(text, front + tail, s, m, i);
    }
  }

  lemma TailOccurrence(front: string, tail: string, s: string, i: nat)
    requires OccursAt(front + tail, s, i) && i >= |front|
    ensures OccursAt(tail, s, i - |front|)
  {
    var out := front + tail;
    SliceOfSlice(out, |front|, |out|, i - |front|, |s|);
    assert out[|front|..|out|] == tail;
  }

  lemma TokenBetween(front: string, tail: string)
    ensures var out := front + TOKEN + tail; out[..|front|] == front && OccursAt(out, TOKEN, |front|)
  {
    assert (front + TOKEN + tail)[|front|..|front| + |TOKEN|] == TOKEN;
  }

  lemma LeftoverInToken(front: string, tail: string, s: string, i: nat)
    requires s != "" && OccursAt(front + TOKEN + tail, s, i) && |front| <= i < |front| + |TOKEN|
    ensures Restorable(s)
  {
    var out, at := front + TOKEN + tail, i - |front|;
    assert out[|front|..|front| + |TOKEN|] == TOKEN;
    if at + |s| <= |TOKEN| {
      assert out[i..i + |s|] == TOKEN[at..at + |s|];
      assert OccursAt(TOKEN, s, at);
    } else {
      var q := |TOKEN| - at;
      assert s[..q] == out[i..i + q] == TOKEN[at..];
    }
  }

  lemma LeftoverBeforeToken(text: string, out: string, s: string, m: nat, i: nat)
    requires s != "" && OccursAt(text, s, m) && i < m
    requires forall j: nat | j < m :: !OccursAt(text, s, j)
    requires m <= |out| && out[..m] == text[..m] && OccursAt(out, TOKEN, m) && OccursAt(out, s, i)
    ensures Restorable(s)
  {
    var k := m - i;
    if i + |s| <= m {
      FrontOccurrence(text, out, s, m, i);
    } else {
      SliceOfSlice(out, 0, m, i, k);
      SliceOfSlice(text, 0, m, i, k);
      SliceOfSlice(out, i, i + |s|, 0, k);
      assert s[..k] == text[i..m];
      TokenMet(out, s, m, i);
      forall j: nat | j < k
        ensures !OccursAt(s[..k] + s, s, j)
      {
        if OccursAt(s[..k] + s, s, j) {
          AroundOccurrence(text, s, m, i);
          SliceOfSlice(text, i, m + |s|, j, |s|);
          assert OccursAt(text, s, i + j);
        }
      }
    }
  }

  lemma FrontOccurrence(text: string, out: string, s: string, m: nat, i: nat)
    requires m <= |text| && m <= |out| && out[..m] == text[..m] && i + |s| <= m && OccursAt(out, s, i)
    ensures OccursAt(text, s, i)
  {
    SliceOfSlice(out, 0, m, i, |s|);
    SliceOfSlice(text, 0, m, i, |s|);
  }

  lemma AroundOccurrence(text: string, s: string, m: nat, i: nat)
    requires OccursAt(text, s, m) && i < m && m - i <= |s| && s[..m - i] == text[i..m]
    ensures s[..m - i] + s == text[i..m + |s|]
  {
    assert text[i..m + |s|] == text[i..m] + text[m..m + |s|];
  }

  lemma TokenMet(out: string, s: string, m: nat, i: nat)
    requires OccursAt(out, s, i) && OccursAt(out, TOKEN, m) && i < m < i + |s|
    ensures MeetsToken(s, m - i)
  {
    forall j | m - i <= j < |s| && j - (m - i) < |TOKEN|
      ensures s[j] == TOKEN[j - (m - i)]
    {
      assert out[i..i + |s|][j] == out[i + j];
      assert out[m..m + |TOKEN|][j - (m - i)] == out[i + j];
    }
  }

  // A text in which the replacement of `s` makes `s` again.
  lemma RestoringText(s: string) returns (text: string)
    requires s != "" && Restorable(s)
    ensures Contains(Replace(text, s), s)
  {
    if Contains(TOKEN, s) {
      text := s;
      PartOfTokenStays(s);
      assert ReplaceAll(s, [s]) == ReplaceAll(Replace(s, s), []);
    } else if StartsInToken(s) {
      var q :| 1 <= q <= |TOKEN| && q < |s| && s[..q] == TOKEN[|TOKEN| - q..];
      text := s + s[q..];
      RestoringRight(s, q);
    } else {
      var k :| 1 <= k < |s| && MeetsToken(s, k) && FirstAt(s, k);
      text := RestoringLeft(s, k);
    }
  }

  lemma RestoringRight(s: string, q: nat)
    requires 1 <= q <= |TOKEN| && q < |s| && s[..q] == TOKEN[|TOKEN| - q..]
    ensures Contains(Replace(s + s[q..], s), s)
  {
    var text, tail := s + s[q..], s[q..];
    assert text[..|s|] == s && text[|s|..] == tail;
    assert Replace(tail, s) == tail;
    assert Replace(text, s) == TOKEN + tail;
    Straddles(TOKEN, s, q);
  }

  lemma Straddles(token: string, s: string, q: nat)
    requires q <= |token| && q <= |s| && s[..q] == token[|token| - q..]
    ensures OccursAt(token + s[q..], s, |token| - q)
  {
    var at := |token| - q;
    assert token + s[q..] == token[..at] + (token[at..] + s[q..]);
    assert token[at..] + s[q..] == s;
  }

  lemma RestoringLeft(s: string, k: nat) returns (text: string)
    requires 1 <= k < |s| && MeetsToken(s, k) && FirstAt(s, k)
    ensures Contains(Replace(text, s), s)
  {
    var rest := if |s| - k > |TOKEN| then s[k + |TOKEN|..] else "";
    text := s[..k] + s + rest;
    OccursOnlyBehind(s, k, rest);
    MatchHere(text, s, k);
    assert text[..k] == s[..k] && text[k + |s|..] == rest;
    RestoredInFront(s, k, rest);
  }

  lemma OccursOnlyBehind(s: string, k: nat, rest: string)
    requires k <= |s| && FirstAt(s, k)
    ensures var text := s[..k] + s + rest; OccursAt(text, s, k) && forall j: nat | j < k :: !OccursAt(text, s, j)
  {
    var text := s[..k] + s + rest;
    assert text[k..k + |s|] == s;
    forall j: nat | j < k
      ensures !OccursAt(text, s, j)
    {
      assert text[j..j + |s|] == (s[..k] + s)[j..j + |s|];
      assert !OccursAt(s[..k] + s, s, j);
    }
  }

  lemma RestoredInFront(s: string, k: nat, rest: string)
    requires k < |s| && MeetsToken(s, k)
    requires rest == if |s| - k > |TOKEN| then s[k + |TOKEN|..] else ""
    ensures Contains(s[..k] + TOKEN + rest, s)
  {
    var out := s[..k] + TOKEN + rest;
    forall j | 0 <= j < |s|
      ensures out[j] == s[j]
    {
    }
    assert out[0..|s|] == s;
    assert OccursAt(out, s, 0);
  }

  predicate Remains(text: string, s: string)
    requires s != ""
  {
    exists i :: 0 <= i <= |ReplaceAll(text, [s])| && OccursAt(ReplaceAll(text, [s]), s, i)
  }

  lemma RemainsInOneReplace(text: string, s: string)
    requires s != ""
    ensures Remains(text, s) <==> Contains(Replace(text, s), s)
  {
    assert ReplaceAll(text, [s]) == ReplaceAll(Replace(text, s), []);
  }

  /** A lone secret is gone from the output for every text if and only if no token can complete it again. */
  lemma LoneSecretExactly(s: string)
    requires s != ""
    ensures (forall text :: !Remains(text, s)) <==> !Restorable(s)
  {
    if Restorable(s) {
      var text := RestoringText(s);
      RemainsInOneReplace(text, s);
      assert Remains(text, s);
    } else {
      forall text: string
        ensures !Remains(text, s)
      {
        RemainsInOneReplace(text, s);
        if Contains(Replace(text, s), s) {
          var i: nat :| OccursAt(Replace(text, s), s, i);
          LeftoverIsRestorable(text, s, i);
        }
      }
    }
  }
}
