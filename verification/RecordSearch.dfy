/**
  The search tokens of a local record: the words of its text fields cut into two and three
  character windows, of which at most 48 distinct ones are indexed, and the token a query looks up.
*/
module RecordSearch {

  const MAX_TOKENS := 48

  type int64 = x: int | -0x8000_0000_0000_0000 <= x < 0x8000_0000_0000_0000

  /** The library functions the store calls: RFC 3339 parsing (0 when it fails) and Unicode classes. */
  datatype Library = Library(
    parseTime: string -> int64,
    lower: char -> char,
    alnum: char -> bool,
    space: char -> bool)
  {
    /** White space does not turn into a letter or digit. */
    ghost predicate Valid() {
      forall c :: space(c) ==> !alnum(lower(c))
    }
  }

  datatype LocalRecord = LocalRecord(
    recordID: string,
    submittedAt: string,
    submittedAtUnixN: int64,
    lastSyncedAt: string,
    lastSyncedAtUnixN: int64,
    filePath: string,
    fileName: string,
    contentHashHex: string,
    eventType: string,
    tenantID: string,
    clientID: string,
    proofLevel: string,
    batchID: string,
    details: string)  // the fields that no index and no filter looks at

  // ---------- strings ----------

  function Lower(lib: Library, s: string): (r: string)
    ensures |r| == |s| && forall i :: 0 <= i < |s| ==> r[i] == lib.lower(s[i])
  {
    seq(|s|, i requires 0 <= i < |s| => lib.lower(s[i]))
  }

  function TrimLeft(lib: Library, s: string): string {
    if s != "" && lib.space(s[0]) then TrimLeft(lib, s[1..]) else s
  }

  function TrimRight(lib: Library, s: string): string {
    if s != "" && lib.space(s[|s| - 1]) then TrimRight(lib, s[..|s| - 1]) else s
  }

  function TrimSpace(lib: Library, s: string): string {
    TrimRight(lib, TrimLeft(lib, s))
  }

  /** `t` stands in `s` at position `i`. */
  predicate StandsAt(s: string, t: string, i: int) {
    0 <= i && i + |t| <= |s| && s[i..i + |t|] == t
  }

  predicate Contains(s: string, t: string) {
    exists i :: 0 <= i <= |s| && StandsAt(s, t, i)
  }

  lemma ContainsTrans(s: string, t: string, u: string)
    requires Contains(s, t) && Contains(t, u)
    ensures Contains(s, u)
  {
    var i :| 0 <= i <= |s| && StandsAt(s, t, i);
    var j :| 0 <= j <= |t| && StandsAt(t, u, j);
    forall k | 0 <= k < |u| ensures s[i + j + k] == u[k] {
      assert u[k] == t[j..j + |u|][k] == s[i..i + |t|][j + k];
    }
    assert StandsAt(s, u, i + j);
  }

  ghost predicate AllAlnum(lib: Library, s: string) {
    forall i :: 0 <= i < |s| ==> lib.alnum(s[i])
  }

  /** Trimming cannot remove a word: it only removes white space at the ends. */
  lemma {:induction false} TrimLeftKeeps(lib: Library, s: string, t: string)
    requires lib.Valid() && t != "" && AllAlnum(lib, t)
    ensures Contains(Lower(lib, TrimLeft(lib, s)), t) <==> Contains(Lower(lib, s), t)
  {
    if s != "" && lib.space(s[0]) {
      TrimLeftKeeps(lib, s[1..], t);
      var l, l' := Lower(lib, s), Lower(lib, s[1..]);
      assert l[1..] == l';
      if i :| 0 <= i <= |l| && StandsAt(l, t, i) {
        assert t[0] == l[i];
        assert l[i..i + |t|] == l'[i - 1..i - 1 + |t|];
        assert StandsAt(l', t, i - 1);
      }
      if i :| 0 <= i <= |l'| && StandsAt(l', t, i) {
        assert l[i + 1..i + 1 + |t|] == l'[i..i + |t|];
        assert StandsAt(l, t, i + 1);
      }
    }
  }

  lemma {:induction false} TrimRightKeeps(lib: Library, s: string, t: string)
    requires lib.Valid() && t != "" && AllAlnum(lib, t)
    ensures Contains(Lower(lib, TrimRight(lib, s)), t) <==> Contains(Lower(lib, s), t)
  {
    if s != "" && lib.space(s[|s| - 1]) {
      var n := |s| - 1;
      TrimRightKeeps(lib, s[..n], t);
      var l, l' := Lower(lib, s), Lower(lib, s[..n]);
      assert l[..n] == l';
      if i :| 0 <= i <= |l| && StandsAt(l, t, i) {
        assert t[|t| - 1] == l[i + |t| - 1];
        assert l[i..i + |t|] == l'[i..i + |t|];
        assert StandsAt(l', t, i);
      }
      if i :| 0 <= i <= |l'| && StandsAt(l', t, i) {
        assert l[i..i + |t|] == l'[i..i + |t|];
        assert StandsAt(l, t, i);
      }
    }
  }

  lemma TrimKeeps(lib: Library, s: string, t: string)
    requires lib.Valid() && t != "" && AllAlnum(lib, t)
    ensures Contains(Lower(lib, TrimSpace(lib, s)), t) <==> Contains(Lower(lib, s), t)
  {
    TrimRightKeeps(lib, TrimLeft(lib, s), t);
    TrimLeftKeeps(lib, s, t);
  }

  // ---------- words ----------

  function Flush(word: string): seq<string> {
    if word == "" then [] else [word]
  }

  /** The maximal runs of letters and digits of `word + s`, the run `word` being under way. */
  function Words(lib: Library, s: string, word: string): seq<string>
    decreases |s|
  {
    if s == "" then Flush(word)
    else if lib.alnum(s[0]) then Words(lib, s[1..], word + [s[0]])
    else Flush(word) + Words(lib, s[1..], "")
  }

  function SearchWords(lib: Library, value: string): seq<string> {
    Words(lib, Lower(lib, TrimSpace(lib, value)), "")
  }

  /** The scan over the runes of a value with its builder. */
  method SearchTokens(lib: Library, value: string) returns (tokens: seq<string>)
    ensures tokens == SearchWords(lib, value)
  {
    var text := Lower(lib, TrimSpace(lib, value));
    tokens := [];
    if text == "" {
      return;
    }
    var word := "";
    for i := 0 to |text|
      invariant SearchWords(lib, value) == tokens + Words(lib, text[i..], word)
    {
      assert text[i..][1..] == text[i + 1..];
      if lib.alnum(text[i]) {
        word := word + [text[i]];
      } else {
        tokens := tokens + Flush(word);
        word := "";
      }
    }
    tokens := tokens + Flush(word);
  }

  ghost predicate SomeContains(words: seq<string>, t: string) {
    exists w <- words :: Contains(w, t)
  }

  lemma ElementAt(s: string, t: string, i: int, p: int)
    requires StandsAt(s, t, i) && i <= p < i + |t|
    ensures s[p] in t
  {
    assert s[p] == s[i..i + |t|][p - i];
  }

  /** Text around one character that `t` does not hold. */
  lemma ContainsApart(a: string, c: char, b: string, t: string)
    requires t != "" && c !in t
    ensures Contains(a + [c] + b, t) <==> Contains(a, t) || Contains(b, t)
  {
    var s := a + [c] + b;
    if i :| 0 <= i <= |s| && StandsAt(s, t, i) {
      if i <= |a| < i + |t| { ElementAt(s, t, i, |a|); assert false; }
      assert a + ([c] + b) == s;
      StandsInPart(a, [c] + b, t, i);
      StandsInPart(a + [c], b, t, i);
    }
    if i :| 0 <= i <= |a| && StandsAt(a, t, i) {
      StandsInPart(a, [c] + b, t, i);
      assert a + ([c] + b) == s;
    }
    if i :| 0 <= i <= |b| && StandsAt(b, t, i) {
      StandsInPart(a + [c], b, t, i + |a| + 1);
    }
  }

  lemma StandsInPart(x: string, y: string, t: string, i: int)
    requires 0 <= i && t != ""
    ensures i + |t| <= |x| ==> (StandsAt(x + y, t, i) <==> StandsAt(x, t, i))
    ensures |x| <= i ==> (StandsAt(x + y, t, i) <==> StandsAt(y, t, i - |x|))
  {
    if i + |t| <= |x| { assert (x + y)[i..i + |t|] == x[i..i + |t|]; }
    if |x| <= i && i + |t| <= |x| + |y| { assert (x + y)[i..i + |t|] == y[i - |x|..i - |x| + |t|]; }
  }

  /** A run of letters and digits occurs in the text exactly when it occurs inside one of its words. */
  lemma {:induction false} WordsCover(lib: Library, s: string, word: string, t: string)
    requires t != "" && AllAlnum(lib, t)
    ensures Contains(word + s, t) <==> SomeContains(Words(lib, s, word), t)
    decreases |s|
  {
    if s == "" {
      assert word + s == word;
      if word == "" { assert !Contains(word, t); } else { assert [word][0] == word; }
    } else if lib.alnum(s[0]) {
      WordsCover(lib, s[1..], word + [s[0]], t);
      assert word + s == word + [s[0]] + s[1..];
    } else {
      var rest := Words(lib, s[1..], "");
      WordsCover(lib, s[1..], "", t);
      assert "" + s[1..] == s[1..];
      assert word + s == word + [s[0]] + s[1..];
      assert s[0] !in t;
      ContainsApart(word, s[0], s[1..], t);
      assert SomeContains(Flush(word) + rest, t) <==> Contains(word, t) || SomeContains(rest, t) by {
        if word == "" { assert !Contains(word, t); assert Flush(word) + rest == rest; }
        else { assert (Flush(word) + rest)[0] == word; assert forall w <- rest :: w in Flush(word) + rest; }
      }
    }
  }

  // ---------- windows ----------

  /** The windows of the given width from position `i` on, in order. */
  function Windows(word: string, width: nat, i: nat): seq<string>
    decreases |word| - i
  {
    if i + width > |word| then [] else if i >= |word| then [] else [word[i..i + width]] + Windows(word, width, i + 1)
  }

  /** The tokens one word contributes, in the order they are added. */
  function Grams(word: string): seq<string> {
    if |word| < 2 then []
    else (if |word| <= 4 then [word] else []) + Windows(word, 2, 0) + Windows(word, 3, 0)
  }

  function GramsOf(words: seq<string>): seq<string> {
    if words == [] then [] else Grams(words[0]) + GramsOf(words[1..])
  }

  lemma GramsStep(words: seq<string>, n: nat)
    requires n < |words|
    ensures GramsOf(words[n..]) == Grams(words[n]) + GramsOf(words[n + 1..])
  {
    assert words[n..][1..] == words[n + 1..];
  }

  lemma {:induction false} WindowsAre(word: string, width: nat, i: nat, t: string)
    requires width > 0
    ensures t in Windows(word, width, i) <==> |t| == width && exists j :: i <= j && StandsAt(word, t, j)
    decreases |word| - i
  {
    if i + width <= |word| {
      WindowsAre(word, width, i + 1, t);
      if |t| == width && word[i..i + width] == t { assert StandsAt(word, t, i); }
      if j :| i <= j && StandsAt(word, t, j) {
        if j != i { assert i + 1 <= j && StandsAt(word, t, j); }
      }
    }
  }

  /** Two and three character tokens of a word are exactly its substrings of those lengths. */
  lemma GramsAre(word: string, t: string)
    requires 2 <= |t| <= 3
    ensures t in Grams(word) <==> Contains(word, t)
  {
    WindowsAre(word, 2, 0, t);
    WindowsAre(word, 3, 0, t);
    if t == word { assert StandsAt(word, t, 0); }
    if j :| 0 <= j && StandsAt(word, t, j) { assert 0 <= j <= |word|; }
  }

  lemma {:induction false} GramsOfAre(words: seq<string>, t: string)
    requires 2 <= |t| <= 3
    ensures t in GramsOf(words) <==> SomeContains(words, t)
  {
    if words != [] {
      GramsAre(words[0], t);
      GramsOfAre(words[1..], t);
      assert words == [words[0]] + words[1..];
    }
  }

  // ---------- the tokens of a record ----------

  function RawWords(lib: Library, rec: LocalRecord): seq<string> {
    SearchWords(lib, rec.fileName) + SearchWords(lib, rec.filePath) + SearchWords(lib, rec.batchID)
    + SearchWords(lib, rec.recordID) + SearchWords(lib, rec.eventType)
  }

  function AllGrams(lib: Library, rec: LocalRecord): seq<string> {
    GramsOf(RawWords(lib, rec))
  }

  /** Adds the tokens of `grams` to `out`, skipping repeats, and stops when `out` is full. */
  function Collect(grams: seq<string>, out: seq<string>): seq<string>
    decreases |grams|
  {
    if grams == [] then out
    else if grams[0] in out then Collect(grams[1..], out)
    else if |out| + 1 >= MAX_TOKENS then out + [grams[0]]
    else Collect(grams[1..], out + [grams[0]])
  }

  function Tokens(lib: Library, rec: LocalRecord): seq<string> {
    Collect(AllGrams(lib, rec), [])
  }

  method Add(out: seq<string>, seen: set<string>, token: string)
    returns (out': seq<string>, seen': set<string>, more: bool)
    requires |out| < MAX_TOKENS && seen == (set t <- out)
    ensures seen' == set t <- out'
    ensures more ==> |out'| < MAX_TOKENS && forall gs :: Collect([token] + gs, out) == Collect(gs, out')
    ensures !more ==> forall gs :: Collect([token] + gs, out) == out'
  {
    ghost var collected := forall gs :: ([token] + gs)[1..] == gs;
    assert collected;
    if token in seen {
      return out, seen, true;
    }
    seen' := seen + {token};
    out' := out + [token];
    more := |out'| < MAX_TOKENS;
  }

  /** The loop over the positions of one width. */
  method AddWindows(word: string, width: nat, out: seq<string>, seen: set<string>, ghost later: seq<string>)
    returns (out': seq<string>, seen': set<string>, more: bool)
    requires width > 0 && |out| < MAX_TOKENS && seen == set t <- out
    ensures seen' == set t <- out'
    ensures more ==> |out'| < MAX_TOKENS && Collect(Windows(word, width, 0) + later, out) == Collect(later, out')
    ensures !more ==> Collect(Windows(word, width, 0) + later, out) == out'
  {
    out', seen' := out, seen;
    var i := 0;
    while i + width <= |word|
      invariant |out'| < MAX_TOKENS && seen' == set t <- out'
      invariant Collect(Windows(word, width, 0) + later, out) == Collect(Windows(word, width, i) + later, out')
    {
      ghost var next := Windows(word, width, i + 1) + later;
      assert Windows(word, width, i) + later == [word[i..i + width]] + next;
      out', seen', more := Add(out', seen', word[i..i + width]);
      if !more {
        return;
      }
      i := i + 1;
    }
    assert Windows(word, width, i) + later == later;
    more := true;
  }

  lemma GramsSplit(word: string, later: seq<string>)
    requires |word| >= 2
    ensures Grams(word) + later ==
              (if |word| <= 4 then [word] else []) + (Windows(word, 2, 0) + (Windows(word, 3, 0) + later))
    ensures |word| > 4 ==> Grams(word) + later == Windows(word, 2, 0) + (Windows(word, 3, 0) + later)
  {
    FourParts(if |word| <= 4 then [word] else [], Windows(word, 2, 0), Windows(word, 3, 0), later);
  }

  lemma FourParts(a: seq<string>, b: seq<string>, c: seq<string>, d: seq<string>)
    ensures a + b + c + d == a + (b + (c + d)) && (a == [] ==> a + b + c + d == b + (c + d))
  {
  }

  /** The body of the loop over the words: the whole word if it is short, then both widths. */
  method AddWord(word: string, out: seq<string>, seen: set<string>, ghost later: seq<string>)
    returns (out': seq<string>, seen': set<string>, more: bool)
    requires |out| < MAX_TOKENS && seen == set t <- out
    ensures seen' == set t <- out'
    ensures more ==> |out'| < MAX_TOKENS && Collect(Grams(word) + later, out) == Collect(later, out')
    ensures !more ==> Collect(Grams(word) + later, out) == out'
  {
    if |word| < 2 {
      assert Grams(word) + later == later;
      return out, seen, true;
    }
    ghost var threes := Windows(word, 3, 0) + later;
    ghost var twos := Windows(word, 2, 0) + threes;
    GramsSplit(word, later);
    out', seen', more := out, seen, true;
    if |word| <= 4 {
      out', seen', more := Add(out', seen', word);
      if !more {
        return;
      }
    }
    out', seen', more := AddWindows(word, 2, out', seen', threes);
    if more {
      out', seen', more := AddWindows(word, 3, out', seen', later);
    }
  }

  method RawTokens(lib: Library, rec: LocalRecord) returns (words: seq<string>)
    ensures words == RawWords(lib, rec)
  {
    words := SearchTokens(lib, rec.fileName);
    var more := SearchTokens(lib, rec.filePath);
    words := words + more;
    more := SearchTokens(lib, rec.batchID);
    words := words + more;
    more := SearchTokens(lib, rec.recordID);
    words := words + more;
    more := SearchTokens(lib, rec.eventType);
    words := words + more;
  }

  method RecordTokens(lib: Library, rec: LocalRecord) returns (out: seq<string>)
    ensures out == Tokens(lib, rec)
  {
    var words := RawTokens(lib, rec);
    var seen: set<string> := {};
    var more: bool;
    out := [];
    assert words[0..] == words;
    for n := 0 to |words|
      invariant |out| < MAX_TOKENS && seen == set t <- out
      invariant Tokens(lib, rec) == Collect(GramsOf(words[n..]), out)
    {
      GramsStep(words, n);
      out, seen, more := AddWord(words[n], out, seen, GramsOf(words[n + 1..]));
      if !more {
        return;
      }
    }
  }

  // ---------- what is indexed ----------

  function Distinct(s: seq<string>): set<string> {
    set t <- s
  }

  /** The list is not cut: the record has at most 48 distinct tokens. */
  ghost predicate NotCut(lib: Library, rec: LocalRecord) {
    |Distinct(AllGrams(lib, rec))| <= MAX_TOKENS
  }

  ghost predicate NoRepeat(s: seq<string>) {
    forall i, j :: 0 <= i < j < |s| ==> s[i] != s[j]
  }

  lemma {:induction false} DistinctSize(s: seq<string>)
    requires NoRepeat(s)
    ensures |Distinct(s)| == |s|
  {
    if s != [] {
      var n := |s| - 1;
      DistinctSize(s[..n]);
      assert Distinct(s) == Distinct(s[..n]) + {s[n]};
      assert s[n] !in Distinct(s[..n]);
    }
  }

  /** `r` holds tokens of `all` only, without repeats, and all of them unless there are more than 48. */
  ghost predicate Kept(r: seq<string>, all: set<string>) {
    && NoRepeat(r) && |r| <= MAX_TOKENS
    && Distinct(r) <= all
    && (|all| <= MAX_TOKENS ==> Distinct(r) == all)
  }

  lemma {:induction false} CollectKeeps(grams: seq<string>, out: seq<string>)
    requires NoRepeat(out) && |out| < MAX_TOKENS
    ensures Kept(Collect(grams, out), Distinct(out) + Distinct(grams))
    decreases |grams|
  {
    if grams == [] {
      assert Distinct(out) + Distinct(grams) == Distinct(out);
    } else {
      var g, rest := grams[0], grams[1..];
      var out' := if g in out then out else out + [g];
      assert Distinct(out') + Distinct(rest) == Distinct(out) + Distinct(grams) by {
        assert grams == [g] + rest;
      }
      if |out'| < MAX_TOKENS {
        CollectKeeps(rest, out');
      } else {
        DistinctSize(out');
        Saturated(Distinct(out'), Distinct(out') + Distinct(rest));
      }
    }
  }

  lemma Saturated(a: set<string>, b: set<string>)
    requires a <= b && |a| == MAX_TOKENS
    ensures |b| <= MAX_TOKENS ==> a == b
  {
    assert |b| == |a| + |b - a| by { assert b == a + (b - a); }
    if b - a != {} { var x :| x in b - a; assert |b - a| > 0; }
  }

  // ---------- queries ----------

  function Fields(rec: LocalRecord): seq<string> {
    [rec.fileName, rec.filePath, rec.batchID, rec.recordID, rec.eventType]
  }

  ghost predicate InText(lib: Library, rec: LocalRecord, t: string) {
    exists f <- Fields(rec) :: Contains(Lower(lib, f), t)
  }

  /** The first word of the query with two or more characters, cut to three; "" when there is none. */
  function FirstLongWord(words: seq<string>): string {
    if words == [] then ""
    else if |words[0]| < 2 then FirstLongWord(words[1..])
    else if |words[0]| <= 3 then words[0]
    else words[0][..3]
  }

  function QueryToken(lib: Library, query: string): string {
    FirstLongWord(SearchWords(lib, query))
  }

  /** A token is collected from a record exactly when one of its five indexed fields contains it. */
  lemma AllGramsAre(lib: Library, rec: LocalRecord, t: string)
    requires lib.Valid() && 2 <= |t| <= 3 && AllAlnum(lib, t)
    ensures t in AllGrams(lib, rec) <==> InText(lib, rec, t)
  {
    GramsOfAre(RawWords(lib, rec), t);
    forall f | f in Fields(rec) ensures Contains(Lower(lib, f), t) <==> SomeContains(SearchWords(lib, f), t) {
      WordsCover(lib, Lower(lib, TrimSpace(lib, f)), "", t);
      assert "" + Lower(lib, TrimSpace(lib, f)) == Lower(lib, TrimSpace(lib, f));
      TrimKeeps(lib, f, t);
    }
    SomeOfFive(SearchWords(lib, rec.fileName), SearchWords(lib, rec.filePath), SearchWords(lib, rec.batchID),
               SearchWords(lib, rec.recordID), SearchWords(lib, rec.eventType), t);
    assert Fields(rec)[0] == rec.fileName && Fields(rec)[1] == rec.filePath && Fields(rec)[2] == rec.batchID
        && Fields(rec)[3] == rec.recordID && Fields(rec)[4] == rec.eventType;
  }

  lemma SomeOfTwo(a: seq<string>, b: seq<string>, t: string)
    ensures SomeContains(a + b, t) <==> SomeContains(a, t) || SomeContains(b, t)
  {
    assert forall w <- a :: w in a + b;
    assert forall w <- b :: w in a + b;
  }

  lemma SomeOfFive(a: seq<string>, b: seq<string>, c: seq<string>, d: seq<string>, e: seq<string>, t: string)
    ensures SomeContains(a + b + c + d + e, t) <==>
              SomeContains(a, t) || SomeContains(b, t) || SomeContains(c, t) || SomeContains(d, t) || SomeContains(e, t)
  {
    SomeOfTwo(a, b, t);
    SomeOfTwo(a + b, c, t);
    SomeOfTwo(a + b + c, d, t);
    SomeOfTwo(a + b + c + d, e, t);
  }

  /** For a record whose list is not cut, the index holds a token exactly when a field contains it. */
  lemma TokensAre(lib: Library, rec: LocalRecord, t: string)
    requires lib.Valid() && 2 <= |t| <= 3 && AllAlnum(lib, t) && NotCut(lib, rec)
    ensures t in Tokens(lib, rec) <==> InText(lib, rec, t)
  {
    var grams := AllGrams(lib, rec);
    CollectKeeps(grams, []);
    assert Distinct([]) + Distinct(grams) == Distinct(grams);
    assert t in Tokens(lib, rec) <==> t in Distinct(Tokens(lib, rec));
    AllGramsAre(lib, rec, t);
  }

  lemma {:induction false} WordsAlnum(lib: Library, s: string, word: string)
    requires AllAlnum(lib, word)
    ensures forall w <- Words(lib, s, word) :: AllAlnum(lib, w)
    decreases |s|
  {
    if s != "" {
      if lib.alnum(s[0]) {
        WordsAlnum(lib, s[1..], word + [s[0]]);
      } else {
        WordsAlnum(lib, s[1..], "");
      }
    }
  }

  lemma {:induction false} FirstLongWordIs(lib: Library, words: seq<string>)
    requires forall w <- words :: AllAlnum(lib, w)
    ensures var t := FirstLongWord(words);
            t != "" ==> 2 <= |t| <= 3 && AllAlnum(lib, t) && SomeContains(words, t)
  {
    if words != [] {
      if |words[0]| < 2 {
        FirstLongWordIs(lib, words[1..]);
        assert forall w <- words[1..] :: w in words;
      } else {
        assert AllAlnum(lib, words[0]);
        assert StandsAt(words[0], FirstLongWord(words), 0);
        assert words[0] in words;
      }
    }
  }

  /** A query's token is a run of two or three letters and digits of the normalized query. */
  lemma QueryTokenIs(lib: Library, query: string)
    requires lib.Valid()
    ensures var t := QueryToken(lib, query);
            t != "" ==> 2 <= |t| <= 3 && AllAlnum(lib, t) && Contains(Lower(lib, TrimSpace(lib, query)), t)
  {
    var text := Lower(lib, TrimSpace(lib, query));
    var t := QueryToken(lib, query);
    WordsAlnum(lib, text, "");
    FirstLongWordIs(lib, SearchWords(lib, query));
    if t != "" {
      WordsCover(lib, text, "", t);
      assert "" + text == text;
    }
  }

  /** Two letters or digits stand together at `i`. */
  ghost predicate PairAt(lib: Library, text: string, i: int) {
    0 <= i && i + 1 < |text| && lib.alnum(text[i]) && lib.alnum(text[i + 1])
  }

  ghost predicate FirstPair(lib: Library, text: string, i: int) {
    PairAt(lib, text, i) && forall k :: 0 <= k < i ==> !PairAt(lib, text, k)
  }

  /** The token that begins with the pair at `i`: three characters if a third belongs to the run. */
  ghost function FromPair(lib: Library, text: string, i: int): string
    requires PairAt(lib, text, i)
  {
    if i + 2 < |text| && lib.alnum(text[i + 2]) then text[i..i + 3] else text[i..i + 2]
  }

  /** The token of a query is where two letters or digits first stand together in it, and there is none if
      and only if they never do. */
  lemma QueryTokenExactly(lib: Library, query: string)
    ensures var text := Lower(lib, TrimSpace(lib, query));
            && (QueryToken(lib, query) == "" <==> forall i :: !PairAt(lib, text, i))
            && forall i :: FirstPair(lib, text, i) ==> QueryToken(lib, query) == FromPair(lib, text, i)
  {
    var text := Lower(lib, TrimSpace(lib, query));
    assert "" + text == text;
    TokenOfWords(lib, text, "");
    PairTokenIs(lib, text);
  }

  function PairToken(lib: Library, text: string): string {
    if |text| < 2 then ""
    else if lib.alnum(text[0]) && lib.alnum(text[1]) then
      if |text| > 2 && lib.alnum(text[2]) then text[..3] else text[..2]
    else PairToken(lib, text[1..])
  }

  lemma {:induction false} TokenOfWords(lib: Library, s: string, word: string)
    requires AllAlnum(lib, word)
    ensures FirstLongWord(Words(lib, s, word)) == PairToken(lib, word + s)
    decreases |s|
  {
    if s == "" {
      EndOfRun(lib, s, word, []);
    } else if lib.alnum(s[0]) {
      TokenOfWords(lib, s[1..], word + [s[0]]);
      assert word + [s[0]] + s[1..] == word + s;
    } else {
      TokenOfWords(lib, s[1..], "");
      assert "" + s[1..] == s[1..];
      EndOfRun(lib, s, word, Words(lib, s[1..], ""));
    }
  }

  /** A run that ends gives the token if it is long enough; otherwise the search goes on behind it. */
  lemma EndOfRun(lib: Library, s: string, word: string, later: seq<string>)
    requires AllAlnum(lib, word) && (s != "" ==> !lib.alnum(s[0]))
    requires FirstLongWord(later) == if s == "" then "" else PairToken(lib, s[1..])
    ensures FirstLongWord(Flush(word) + later) == PairToken(lib, word + s)
  {
    if |word| < 2 {
      ShortRun(lib, s, word);
      assert word != "" ==> ([word] + later)[1..] == later;
      assert word == "" ==> Flush(word) + later == later;
    } else {
      LongRun(lib, s, word);
      assert Flush(word) + later == [word] + later;
    }
  }

  lemma ShortRun(lib: Library, s: string, word: string)
    requires |word| < 2 && (s != "" ==> !lib.alnum(s[0]))
    ensures PairToken(lib, word + s) == if s == "" then "" else PairToken(lib, s[1..])
  {
    if word == "" {
      assert word + s == s;
    } else {
      assert (word + s)[1..] == s;
    }
  }

  lemma LongRun(lib: Library, s: string, word: string)
    requires |word| >= 2 && AllAlnum(lib, word) && (s != "" ==> !lib.alnum(s[0]))
    ensures PairToken(lib, word + s) == if |word| <= 3 then word else word[..3]
  {
    var text := word + s;
    assert text[0] == word[0] && text[1] == word[1];
    assert text[..2] == word[..2];
    if |word| > 2 { assert text[2] == word[2] && text[..3] == word[..3]; }
  }

  lemma {:induction false} PairTokenIs(lib: Library, text: string)
    ensures PairToken(lib, text) == "" <==> forall i :: !PairAt(lib, text, i)
    ensures forall i :: FirstPair(lib, text, i) ==> PairToken(lib, text) == FromPair(lib, text, i)
  {
    if PairAt(lib, text, 0) {
      assert text[0..2] == text[..2];
    } else if |text| >= 2 {
      var rest := text[1..];
      PairTokenIs(lib, rest);
      forall i ensures PairAt(lib, text, i) <==> PairAt(lib, rest, i - 1) {}
      forall i | PairAt(lib, rest, i) ensures PairAt(lib, text, i + 1) {}
      forall i | FirstPair(lib, text, i) ensures PairToken(lib, text) == FromPair(lib, text, i) {
        ShiftedPair(lib, text, i);
      }
    }
  }

  lemma ShiftedPair(lib: Library, text: string, i: int)
    requires FirstPair(lib, text, i) && i > 0
    ensures FirstPair(lib, text[1..], i - 1) && FromPair(lib, text[1..], i - 1) == FromPair(lib, text, i)
  {
    var rest := text[1..];
    forall k | 0 <= k < i - 1 ensures !PairAt(lib, rest, k) {
      assert !PairAt(lib, text, k + 1);
    }
  }

  /** A record that matches the query through an indexed field contains the query's token. */
  lemma MatchHasToken(lib: Library, rec: LocalRecord, query: string)
    requires lib.Valid() && QueryToken(lib, query) != ""
    requires InText(lib, rec, Lower(lib, TrimSpace(lib, query)))
    ensures InText(lib, rec, QueryToken(lib, query))
  {
    QueryTokenIs(lib, query);
    var q := Lower(lib, TrimSpace(lib, query));
    var f :| f in Fields(rec) && Contains(Lower(lib, f), q);
    ContainsTrans(Lower(lib, f), q, QueryToken(lib, query));
  }
}
