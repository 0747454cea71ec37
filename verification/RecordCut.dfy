/**
  Which tokens of a record survive the cut at 48. Record IDs are long runs of letters and digits, so
  nearly every record has more tokens than are indexed, and what is indexed depends on their order.
*/
module RecordCut {
  import opened RecordSearch

  /** Somewhere in the list the token comes up while fewer than 48 distinct ones have gone before. */
  ghost predicate InTime(grams: seq<string>, out: seq<string>, t: string) {
    exists p: nat :: ComesUp(grams, out, t, p)
  }

  ghost predicate ComesUp(grams: seq<string>, out: seq<string>, t: string, p: nat) {
    p < |grams| && grams[p] == t && |Distinct(out) + Distinct(grams[..p])| < MAX_TOKENS
  }

  lemma {:induction false} CollectExtends(grams: seq<string>, out: seq<string>)
    ensures out <= Collect(grams, out)
    decreases |grams|
  {
    if grams != [] && grams[0] in out {
      CollectExtends(grams[1..], out);
    } else if grams != [] && |out| + 1 < MAX_TOKENS {
      CollectExtends(grams[1..], out + [grams[0]]);
    }
  }

  lemma SeenBefore(grams: seq<string>, out: seq<string>, p: nat)
    requires 0 < p <= |grams|
    ensures Distinct(out) + Distinct(grams[..p]) == Distinct(out + [grams[0]]) + Distinct(grams[1..][..p - 1])
    ensures grams[0] in out ==> Distinct(out) + Distinct(grams[..p]) == Distinct(out) + Distinct(grams[1..][..p - 1])
  {
    assert grams[..p] == [grams[0]] + grams[1..][..p - 1];
  }

  /** Moving the first token from the list to what was collected changes nothing for a later one. */
  lemma LaterInTime(grams: seq<string>, out: seq<string>, out': seq<string>, t: string)
    requires grams != [] && grams[0] != t
    requires out' == if grams[0] in out then out else out + [grams[0]]
    ensures InTime(grams, out, t) <==> InTime(grams[1..], out', t)
  {
    if InTime(grams, out, t) {
      var p: nat :| ComesUp(grams, out, t, p);
      LaterAt(grams, out, out', t, p);
    }
    if InTime(grams[1..], out', t) {
      var p: nat :| ComesUp(grams[1..], out', t, p);
      LaterAt(grams, out, out', t, p + 1);
    }
  }

  lemma LaterAt(grams: seq<string>, out: seq<string>, out': seq<string>, t: string, p: nat)
    requires 0 < p < |grams| && out' == if grams[0] in out then out else out + [grams[0]]
    ensures ComesUp(grams, out, t, p) <==> ComesUp(grams[1..], out', t, p - 1)
  {
    SeenBefore(grams, out, p);
  }

  lemma AtLeast(a: set<string>, b: set<string>)
    ensures |a| <= |a + b|
  {
    assert a + b == a + (b - a);
  }

  /** Nothing new is collected after the list is full. */
  lemma FullNow(grams: seq<string>, out: seq<string>, t: string)
    requires grams != [] && NoRepeat(out + [grams[0]]) && |out| + 1 == MAX_TOKENS
    ensures InTime(grams, out, t) <==> t == grams[0]
  {
    DistinctSize(out + [grams[0]]);
    DistinctSize((out + [grams[0]])[..|out|]);
    assert (out + [grams[0]])[..|out|] == out;
    if t == grams[0] {
      assert Distinct(out) + Distinct(grams[..0]) == Distinct(out);
      assert ComesUp(grams, out, t, 0);
    } else if InTime(grams, out, t) {
      var p: nat :| ComesUp(grams, out, t, p);
      SeenBefore(grams, out, p);
      AtLeast(Distinct(out + [grams[0]]), Distinct(grams[1..][..p - 1]));
    }
  }

  /** What the loop with its cap collects, token by token. */
  lemma {:induction false} CollectExactly(grams: seq<string>, out: seq<string>, t: string)
    requires NoRepeat(out) && |out| < MAX_TOKENS && t !in out
    ensures t in Collect(grams, out) <==> InTime(grams, out, t)
    decreases |grams|
  {
    if grams != [] {
      var g := grams[0];
      var out' := if g in out then out else out + [g];
      if g in out {
        CollectExactly(grams[1..], out, t);
        LaterInTime(grams, out, out', t);
      } else if |out'| >= MAX_TOKENS {
        FullNow(grams, out, t);
      } else if t == g {
        CollectExtends(grams[1..], out');
        assert out'[|out|] == t;
        FirstInTime(grams, out);
      } else {
        CollectExactly(grams[1..], out', t);
        LaterInTime(grams, out, out', t);
      }
    }
  }

  lemma FirstInTime(grams: seq<string>, out: seq<string>)
    requires grams != [] && NoRepeat(out) && |out| < MAX_TOKENS
    ensures InTime(grams, out, grams[0])
  {
    DistinctSize(out);
    assert Distinct(out) + Distinct(grams[..0]) == Distinct(out);
    assert ComesUp(grams, out, grams[0], 0);
  }

  // ---------- records ----------

  /** The token is among the record's first 48. */
  ghost predicate Indexed(lib: Library, rec: LocalRecord, t: string) {
    InTime(AllGrams(lib, rec), [], t)
  }

  lemma TokenIndexed(lib: Library, rec: LocalRecord, t: string)
    ensures t in Tokens(lib, rec) <==> Indexed(lib, rec, t)
  {
    CollectExactly(AllGrams(lib, rec), [], t);
  }

  /** Every token of a record is indexed exactly when it has at most 48. */
  lemma AllIndexed(lib: Library, rec: LocalRecord)
    ensures (forall t <- AllGrams(lib, rec) :: t in Tokens(lib, rec)) <==> NotCut(lib, rec)
  {
    var grams, tokens := AllGrams(lib, rec), Tokens(lib, rec);
    CollectKeeps(grams, []);
    assert Distinct([]) + Distinct(grams) == Distinct(grams);
    if NotCut(lib, rec) {
      forall t | t in grams ensures t in tokens {
        assert t in Distinct(grams) && t in Distinct(tokens);
      }
    } else {
      DistinctSize(tokens);
      assert Distinct(tokens) != Distinct(grams);
      var t :| t in Distinct(grams) && t !in Distinct(tokens);
      assert t in grams && t !in tokens;
    }
  }

  /** A token that occurs in a first part of the list with at most 48 distinct ones is in time, */
  lemma EarlyInTime(a: seq<string>, b: seq<string>, t: string)
    requires t in a && |Distinct(a)| <= MAX_TOKENS
    ensures InTime(a + b, [], t)
  {
    var p := First(a, t);
    assert (a + b)[..p] == a[..p];
    assert Distinct([]) + Distinct(a[..p]) == Distinct(a[..p]);
    AtLeast(Distinct(a[..p]) + {t}, Distinct(a));
    assert Distinct(a[..p]) + {t} + Distinct(a) == Distinct(a);
    assert ComesUp(a + b, [], t, p);
  }

  lemma {:induction false} First(a: seq<string>, t: string) returns (p: nat)
    requires t in a
    ensures p < |a| && a[p] == t && t !in a[..p]
  {
    if a[0] == t {
      p := 0;
    } else {
      p := First(a[1..], t);
      p := p + 1;
      assert a[..p] == [a[0]] + a[1..][..p - 1];
    }
  }

  /** and one that occurs only after 48 distinct ones is not. */
  lemma LateNotInTime(a: seq<string>, b: seq<string>, t: string)
    requires t !in a && |Distinct(a)| >= MAX_TOKENS
    ensures !InTime(a + b, [], t)
  {
    if InTime(a + b, [], t) {
      var p: nat :| ComesUp(a + b, [], t, p);
      assert p >= |a|;
      assert (a + b)[..p] == a + b[..p - |a|];
      assert Distinct([]) + Distinct((a + b)[..p]) == Distinct(a) + Distinct(b[..p - |a|]);
      AtLeast(Distinct(a), Distinct(b[..p - |a|]));
    }
  }

  /** The tokens of a list of words, for any way of cutting a word. */
  function CutAll(cut: string -> seq<string>, words: seq<string>): seq<string> {
    if words == [] then [] else cut(words[0]) + CutAll(cut, words[1..])
  }

  lemma {:induction false} GramsCut(words: seq<string>)
    ensures GramsOf(words) == CutAll(Grams, words)
  {
    if words != [] {
      GramsCut(words[1..]);
    }
  }

  lemma {:induction false} CutConcat(cut: string -> seq<string>, a: seq<string>, b: seq<string>)
    ensures CutAll(cut, a + b) == CutAll(cut, a) + CutAll(cut, b)
    decreases |a|
  {
    if a == [] {
      assert a + b == b;
    } else {
      CutConcat(cut, a[1..], b);
      assert (a + b)[1..] == a[1..] + b;
      Assoc(cut(a[0]), CutAll(cut, a[1..]), CutAll(cut, b));
    }
  }

  lemma GramsOfConcat(a: seq<string>, b: seq<string>)
    ensures GramsOf(a + b) == GramsOf(a) + GramsOf(b)
  {
    GramsCut(a);
    GramsCut(b);
    GramsCut(a + b);
    CutConcat(Grams, a, b);
  }

  lemma Assoc(a: seq<string>, b: seq<string>, c: seq<string>)
    ensures (a + b) + c == a + (b + c)
  {
  }

  /** The words of the fields before the record ID, and of all fields after the file name. */
  function WordsBeforeID(lib: Library, rec: LocalRecord): seq<string> {
    SearchWords(lib, rec.fileName) + SearchWords(lib, rec.filePath) + SearchWords(lib, rec.batchID)
  }

  function WordsAfterName(lib: Library, rec: LocalRecord): seq<string> {
    SearchWords(lib, rec.filePath) + SearchWords(lib, rec.batchID) + SearchWords(lib, rec.recordID)
    + SearchWords(lib, rec.eventType)
  }

  lemma NameFirst(lib: Library, rec: LocalRecord)
    ensures AllGrams(lib, rec) == GramsOf(SearchWords(lib, rec.fileName)) + GramsOf(WordsAfterName(lib, rec))
  {
    GramsOfConcat(SearchWords(lib, rec.fileName), WordsAfterName(lib, rec));
    assert RawWords(lib, rec) == SearchWords(lib, rec.fileName) + WordsAfterName(lib, rec);
  }

  /** The file name comes first: if it has at most 48 distinct tokens, all of them are indexed. */
  lemma NameIndexed(lib: Library, rec: LocalRecord, t: string)
    requires lib.Valid() && 2 <= |t| <= 3 && AllAlnum(lib, t) && Contains(Lower(lib, rec.fileName), t)
    requires |Distinct(GramsOf(SearchWords(lib, rec.fileName)))| <= MAX_TOKENS
    ensures Indexed(lib, rec, t)
  {
    NameFirst(lib, rec);
    FieldGrams(lib, rec.fileName, t);
    EarlyInTime(GramsOf(SearchWords(lib, rec.fileName)), GramsOf(WordsAfterName(lib, rec)), t);
  }

  lemma FieldGrams(lib: Library, f: string, t: string)
    requires lib.Valid() && 2 <= |t| <= 3 && AllAlnum(lib, t)
    ensures t in GramsOf(SearchWords(lib, f)) <==> Contains(Lower(lib, f), t)
  {
    GramsOfAre(SearchWords(lib, f), t);
    WordsCover(lib, Lower(lib, TrimSpace(lib, f)), "", t);
    assert "" + Lower(lib, TrimSpace(lib, f)) == Lower(lib, TrimSpace(lib, f));
    TrimKeeps(lib, f, t);
  }

  // ---------- a file name of 24 characters is short enough ----------

  lemma {:induction false} WindowCount(word: string, width: nat, i: nat)
    requires width > 0
    ensures |Windows(word, width, i)| == if i + width > |word| then 0 else |word| - width - i + 1
    decreases |word| - i
  {
    if i + width <= |word| {
      WindowCount(word, width, i + 1);
    }
  }

  function Size(words: seq<string>): nat {
    if words == [] then 0 else |words[0]| + Size(words[1..])
  }

  lemma {:induction false} GramCount(words: seq<string>)
    ensures |GramsOf(words)| <= 2 * Size(words)
  {
    if words != [] {
      WindowCount(words[0], 2, 0);
      WindowCount(words[0], 3, 0);
      GramCount(words[1..]);
    }
  }

  lemma {:induction false} WordsSize(lib: Library, s: string, word: string)
    ensures Size(Words(lib, s, word)) <= |word| + |s|
    decreases |s|
  {
    if s != "" && lib.alnum(s[0]) {
      WordsSize(lib, s[1..], word + [s[0]]);
    } else if s != "" {
      WordsSize(lib, s[1..], "");
      assert word != "" ==> (Flush(word) + Words(lib, s[1..], ""))[1..] == Words(lib, s[1..], "");
      assert word == "" ==> Flush(word) + Words(lib, s[1..], "") == Words(lib, s[1..], "");
    } else if word != "" {
      assert [word][1..] == [];
    }
  }

  lemma {:induction false} TrimShortens(lib: Library, s: string)
    ensures |TrimLeft(lib, s)| <= |s| && |TrimRight(lib, s)| <= |s|
    decreases |s|
  {
    if s != "" {
      TrimShortens(lib, s[1..]);
      TrimShortens(lib, s[..|s| - 1]);
    }
  }

  lemma {:induction false} DistinctAtMost(s: seq<string>)
    ensures |Distinct(s)| <= |s|
  {
    if s != [] {
      DistinctAtMost(s[1..]);
      assert s == [s[0]] + s[1..];
      assert Distinct(s) == {s[0]} + Distinct(s[1..]);
    }
  }

  lemma ShortName(lib: Library, name: string)
    requires |name| <= 24
    ensures |Distinct(GramsOf(SearchWords(lib, name)))| <= MAX_TOKENS
  {
    TrimShortens(lib, name);
    TrimShortens(lib, TrimLeft(lib, name));
    WordsSize(lib, Lower(lib, TrimSpace(lib, name)), "");
    GramCount(SearchWords(lib, name));
    DistinctAtMost(GramsOf(SearchWords(lib, name)));
  }

  // ---------- record IDs ----------

  /** One run of letters and digits in lower case, longer than the longest whole word that is indexed. */
  ghost predicate PlainID(lib: Library, id: string) {
    AllAlnum(lib, id) && Lower(lib, id) == id && |id| > 4
  }

  lemma {:induction false} OneWord(lib: Library, s: string, word: string)
    requires AllAlnum(lib, s) && word + s != ""
    ensures Words(lib, s, word) == [word + s]
    decreases |s|
  {
    if s == "" {
      assert word + s == word;
    } else {
      OneWord(lib, s[1..], word + [s[0]]);
      assert word + [s[0]] + s[1..] == word + s;
    }
  }

  lemma IDWord(lib: Library, id: string)
    requires lib.Valid() && PlainID(lib, id)
    ensures TrimSpace(lib, id) == id && SearchWords(lib, id) == [id] && QueryToken(lib, id) == id[..3]
  {
    assert lib.alnum(id[0]) && lib.lower(id[0]) == id[0];
    assert lib.alnum(id[|id| - 1]) && lib.lower(id[|id| - 1]) == id[|id| - 1];
    OneWord(lib, id, "");
    assert "" + id == id;
  }

  /** The two character windows of a plain ID come before its three character windows. */
  lemma IDGrams(lib: Library, rec: LocalRecord)
    requires lib.Valid() && PlainID(lib, rec.recordID)
    ensures AllGrams(lib, rec) ==
              (GramsOf(WordsBeforeID(lib, rec)) + Windows(rec.recordID, 2, 0))
              + (Windows(rec.recordID, 3, 0) + GramsOf(SearchWords(lib, rec.eventType)))
  {
    var id := rec.recordID;
    IDWord(lib, id);
    GramsOfConcat(WordsBeforeID(lib, rec) + [id], SearchWords(lib, rec.eventType));
    GramsOfConcat(WordsBeforeID(lib, rec), [id]);
    assert [id][1..] == [] && GramsOf([id]) == Grams(id) + [];
    Regroup(GramsOf(WordsBeforeID(lib, rec)), Windows(id, 2, 0), Windows(id, 3, 0),
            GramsOf(SearchWords(lib, rec.eventType)));
  }

  lemma Regroup(a: seq<string>, b: seq<string>, c: seq<string>, d: seq<string>)
    ensures a + (([] + b + c) + []) + d == (a + b) + (c + d)
  {
  }

  /** So the token of a query for the whole ID is cut once 48 distinct tokens come before: unless an
      earlier field contains its first three characters, the record's own ID does not find it. */
  lemma OwnIDCut(lib: Library, rec: LocalRecord)
    requires lib.Valid() && PlainID(lib, rec.recordID) && |Distinct(Windows(rec.recordID, 2, 0))| >= MAX_TOKENS
    requires forall f <- [rec.fileName, rec.filePath, rec.batchID] :: !Contains(Lower(lib, f), rec.recordID[..3])
    ensures !Indexed(lib, rec, rec.recordID[..3])
  {
    var id := rec.recordID;
    var a, twos := GramsOf(WordsBeforeID(lib, rec)), Windows(id, 2, 0);
    IDGrams(lib, rec);
    NotBefore(lib, rec, id[..3]);
    WindowsAre(id, 2, 0, id[..3]);
    assert Distinct(a + twos) == Distinct(twos) + Distinct(a);
    AtLeast(Distinct(twos), Distinct(a));
    LateNotInTime(a + twos, Windows(id, 3, 0) + GramsOf(SearchWords(lib, rec.eventType)), id[..3]);
  }

  lemma NotBefore(lib: Library, rec: LocalRecord, t: string)
    requires lib.Valid() && |t| == 3 && AllAlnum(lib, t)
    requires forall f <- [rec.fileName, rec.filePath, rec.batchID] :: !Contains(Lower(lib, f), t)
    ensures t !in GramsOf(WordsBeforeID(lib, rec))
  {
    var fields := [rec.fileName, rec.filePath, rec.batchID];
    assert fields[0] == rec.fileName && fields[1] == rec.filePath && fields[2] == rec.batchID;
    FieldGrams(lib, rec.fileName, t);
    FieldGrams(lib, rec.filePath, t);
    FieldGrams(lib, rec.batchID, t);
    GramsOfConcat(SearchWords(lib, rec.fileName), SearchWords(lib, rec.filePath));
    GramsOfConcat(SearchWords(lib, rec.fileName) + SearchWords(lib, rec.filePath), SearchWords(lib, rec.batchID));
  }

  // ---------- an ID of the form the server gives ----------

  /** The characters of a record ID: base32 in lower case. */
  predicate Base32(c: char) { 'a' <= c <= 'z' || '2' <= c <= '7' }

  ghost predicate PlainBase32(lib: Library) {
    forall c | Base32(c) :: lib.alnum(c) && lib.lower(c) == c
  }

  function Letter(k: nat): char
    requires k < 26
  {
    if k < 25 then 'b' + k as char else 'a'
  }

  function SampleChar(i: nat): char
    requires i < 52
  {
    if i % 2 == 0 then 'a' else Letter(i / 2)
  }

  /** "tr2" and 52 characters: every other one is an a, between them stand b to z, and the last is an a
      again, because the 52nd character of a 32-byte digest carries one bit. */
  function SampleID(): (id: string)
    ensures |id| == 55 && id[..3] == "tr2" && forall i | 0 <= i < 52 :: id[i + 3] == SampleChar(i)
  {
    "tr2" + seq(52, i requires 0 <= i < 52 => SampleChar(i))
  }

  lemma SamplePlain(lib: Library)
    requires PlainBase32(lib)
    ensures PlainID(lib, SampleID())
  {
    var id := SampleID();
    forall i | 0 <= i < |id| ensures Base32(id[i]) {
      if i >= 3 {
        assert id[i] == SampleChar(i - 3);
      } else {
        assert id[i] == id[..3][i] == "tr2"[i];
      }
    }
    assert Lower(lib, id) == id;
  }

  /** Two windows of the sample's tail differ. */
  lemma PairsDiffer(i: nat, j: nat)
    requires i < j < 48
    ensures SampleChar(i) != SampleChar(j) || SampleChar(i + 1) != SampleChar(j + 1)
  {
  }

  lemma SampleWindows()
    ensures |Distinct(Windows(SampleID(), 2, 0))| >= MAX_TOKENS
  {
    var id := SampleID();
    var pairs := seq(48, i requires 0 <= i < 48 => id[i + 3..i + 5]);
    forall i, j | 0 <= i < j < 48 ensures pairs[i] != pairs[j] {
      PairsDiffer(i, j);
      assert pairs[i][0] == SampleChar(i) && pairs[i][1] == SampleChar(i + 1);
      assert pairs[j][0] == SampleChar(j) && pairs[j][1] == SampleChar(j + 1);
    }
    DistinctSize(pairs);
    forall t | t in Distinct(pairs) ensures t in Distinct(Windows(id, 2, 0)) {
      var i :| 0 <= i < 48 && pairs[i] == t;
      assert StandsAt(id, t, i + 3);
      WindowsAre(id, 2, 0, t);
    }
    assert Distinct(pairs) + Distinct(Windows(id, 2, 0)) == Distinct(Windows(id, 2, 0));
    AtLeast(Distinct(pairs), Distinct(Windows(id, 2, 0)));
  }
}
