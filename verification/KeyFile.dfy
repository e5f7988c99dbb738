/** The file of private keys (utils/utils.go) and the accounts a start of the tester takes from it and adds
    to it (continuous/account.go, continuous/config.go). */
module KeyFile {
  import opened Base
  import opened Hex
  import opened Codec

  /** The order of the curve secp256k1: a private key is a number from 1 to one below it. */
  const CURVE_ORDER: int := 0xFFFFFFFF_FFFFFFFF_FFFFFFFF_FFFFFFFE_BAAEDCE6_AF48A03B_BFD25E8C_D0364141

  const NUM_FUNDED_ACCOUNTS: nat := 6

  predicate ValidKey(key: seq<byte>) { |key| == 32 && 0 < FromBE(key) < CURVE_ORDER }

  datatype Stored = Stored(key: seq<byte>, address: seq<byte>)

  predicate ValidStored(a: Stored) { ValidKey(a.key) && |a.address| == 20 }

  /** What one account adds to the file. */
  function Line(a: Stored): string { Encode(a.key) + " " + Encode(a.address) + "\n" }

  function Lines(accounts: seq<Stored>): string {
    if accounts == [] then "" else Lines(accounts[..|accounts| - 1]) + Line(accounts[|accounts| - 1])
  }

  function KeysOf(accounts: seq<Stored>): seq<seq<byte>> {
    seq(|accounts|, i requires 0 <= i < |accounts| => accounts[i].key)
  }

  // --- words ---

  lemma Assoc<T>(a: seq<T>, b: seq<T>, c: seq<T>)
    ensures a + b + c == a + (b + c)
  {
  }

  lemma Assoc4<T>(a: seq<T>, b: seq<T>, c: seq<T>, d: seq<T>, e: seq<T>)
    ensures a + (b + c + d + e) == a + b + c + d + e
  {
  }

  lemma TwoMore<T>(xs: seq<T>, x: T, y: T)
    ensures xs + [x] + [y] == xs + [x, y]
  {
  }

  lemma TakeTake<T>(xs: seq<T>, i: nat, j: nat)
    requires i <= j <= |xs|
    ensures xs[..j][..i] == xs[..i]
  {
  }

  lemma Whole<T>(xs: seq<T>)
    ensures xs[..|xs|] == xs && xs + [] == xs && [] + xs == xs
  {
  }

  lemma SnocLast<T>(xs: seq<T>)
    requires xs != []
    ensures xs == xs[..|xs| - 1] + [xs[|xs| - 1]]
  {
  }

  predicate IsSpace(c: char) { c == ' ' || '\t' <= c <= '\r' || c as int == 0x85 || c as int == 0xA0 }

  /** The complete words of a text, and the word it breaks off in. */
  datatype Scan = Scan(words: seq<string>, tail: string)

  function Split(text: string): Scan {
    if text == "" then Scan([], "") else Feed(Split(text[..|text| - 1]), text[|text| - 1])
  }

  function Feed(s: Scan, c: char): Scan {
    if !IsSpace(c) then Scan(s.words, s.tail + [c])
    else if s.tail == "" then s
    else Scan(s.words + [s.tail], "")
  }

  function Words(text: string): seq<string> {
    var s := Split(text);
    if s.tail == "" then s.words else s.words + [s.tail]
  }

  /** Nothing is left over at the end of the text. */
  predicate EndsClean(text: string) { text == "" || IsSpace(text[|text| - 1]) }

  /** Space, tab, newline, vertical tab, form feed, carriage return, and the two of Latin-1. */
  lemma SpacesAre(c: char)
    ensures IsSpace(c) <==> c as int in {0x20, 0x09, 0x0A, 0x0B, 0x0C, 0x0D, 0x85, 0xA0}
  {
  }

  /** There is a word of the text here: not empty, without spaces, and with the text's begin or a space on its
      left and a space on its right. */
  predicate WordAt(text: string, p: nat, word: string) {
    && word != "" && p + |word| < |text| && text[p..p + |word|] == word
    && (forall c | c in word :: !IsSpace(c))
    && (p > 0 ==> IsSpace(text[p - 1])) && IsSpace(text[p + |word|])
  }

  lemma WordStays(text: string, c: char, p: nat, word: string)
    requires WordAt(text, p, word)
    ensures WordAt(text + [c], p, word)
  {
    assert (text + [c])[p..p + |word|] == text[p..p + |word|];
  }

  /** What one more character does. */
  lemma SplitPartsNext(front: string, c: char)
    ensures var text, s := front + [c], Split(front);
      && Split(text).words == (if IsSpace(c) && s.tail != "" then s.words + [s.tail] else s.words)
      && Split(text).tail == (if IsSpace(c) then "" else s.tail + [c])
  {
    SplitNext(front, c);
  }

  /** This is what the text ends with since its last space. */
  predicate EndsIn(text: string, tail: string) {
    && |tail| <= |text| && text[|text| - |tail|..] == tail
    && (forall c | c in tail :: !IsSpace(c))
    && (|tail| < |text| ==> IsSpace(text[|text| - |tail| - 1]))
  }

  lemma EndsInNext(front: string, tail: string, c: char)
    requires EndsIn(front, tail)
    ensures EndsIn(front + [c], if IsSpace(c) then "" else tail + [c])
  {
    var text := front + [c];
    if IsSpace(c) {
      assert text[|text| - 0..] == "";
    } else {
      assert text[|front| - |tail|..] == front[|front| - |tail|..] + [c];
    }
  }

  /** The word the text breaks off in: what comes after its last space. */
  lemma {:induction false} TailIs(text: string)
    ensures EndsIn(text, Split(text).tail)
  {
    if text == "" {
    } else {
      var front, c := text[..|text| - 1], text[|text| - 1];
      SnocLast(text);
      TailIs(front);
      EndsInNext(front, Split(front).tail, c);
      SplitPartsNext(front, c);
    }
  }

  /** Where the complete words of a text begin. */
  function Starts(text: string): (at: seq<nat>)
    ensures |at| == |Split(text).words|
  {
    if text == "" then []
    else
      var front, c := text[..|text| - 1], text[|text| - 1];
      TailIs(front);
      if IsSpace(c) && Split(front).tail != "" then Starts(front) + [|front| - |Split(front).tail|] else Starts(front)
  }

  /** The word that a space completes. */
  lemma CompletedWord(front: string, c: char)
    requires IsSpace(c) && EndsIn(front, Split(front).tail) && Split(front).tail != ""
    ensures WordAt(front + [c], |front| - |Split(front).tail|, Split(front).tail)
  {
    var tail := Split(front).tail;
    assert (front + [c])[|front| - |tail|..|front|] == front[|front| - |tail|..];
  }

  /** The words a text had stay where they are. */
  lemma FrontWords(text: string, k: nat)
    requires text != "" && k < |Split(text[..|text| - 1]).words|
    ensures k < |Split(text).words|
    ensures Split(text).words[k] == Split(text[..|text| - 1]).words[k]
    ensures Starts(text)[k] == Starts(text[..|text| - 1])[k]
  {
  }

  /** A word that is new is the one the last character completes. */
  lemma NewWord(text: string, k: nat)
    requires text != "" && |Split(text[..|text| - 1]).words| <= k < |Split(text).words|
    ensures var front := text[..|text| - 1];
      && IsSpace(text[|front|]) && Split(front).tail != "" && EndsIn(front, Split(front).tail)
      && k == |Split(front).words| && Split(text).words[k] == Split(front).tail
      && Starts(text)[k] == |front| - |Split(front).tail|
  {
    TailIs(text[..|text| - 1]);
  }

  /** The complete words are words of the text. */
  lemma {:induction false} WordsAreThere(text: string, k: nat)
    requires k < |Split(text).words|
    ensures WordAt(text, Starts(text)[k], Split(text).words[k])
  {
    var front, c := text[..|text| - 1], text[|text| - 1];
    SnocLast(text);
    if k < |Split(front).words| {
      FrontWords(text, k);
      WordsAreThere(front, k);
      WordStays(front, c, Starts(front)[k], Split(front).words[k]);
    } else {
      NewWord(text, k);
      CompletedWord(front, c);
    }
  }

  /** The last complete word ends before the tail begins. */
  lemma {:induction false} LastWordBeforeTail(text: string)
    requires Split(text).words != []
    ensures var k := |Split(text).words| - 1;
      Starts(text)[k] + |Split(text).words[k]| < |text| - |Split(text).tail|
  {
    var front, c := text[..|text| - 1], text[|text| - 1];
    SnocLast(text);
    TailIs(front);
    SplitPartsNext(front, c);
    if !(IsSpace(c) && Split(front).tail != "") {
      LastWordBeforeTail(front);
    }
  }

  /** One after the other. */
  lemma {:induction false} WordsAreInOrder(text: string, k: nat)
    requires 0 < k < |Split(text).words|
    ensures Starts(text)[k - 1] + |Split(text).words[k - 1]| < Starts(text)[k]
  {
    var front := text[..|text| - 1];
    if k < |Split(front).words| {
      FrontWords(text, k);
      FrontWords(text, k - 1);
      WordsAreInOrder(front, k);
    } else {
      NewWord(text, k);
      FrontWords(text, k - 1);
      LastWordBeforeTail(front);
    }
  }

  /** And no other character than spaces is outside of them. */
  lemma {:induction false} NothingIsLeftOut(text: string, i: nat) returns (k: nat)
    requires i < |text| && !IsSpace(text[i])
    ensures i < |text| - |Split(text).tail| ==>
      k < |Split(text).words| && Starts(text)[k] <= i < Starts(text)[k] + |Split(text).words[k]|
  {
    var front, c := text[..|text| - 1], text[|text| - 1];
    SnocLast(text);
    TailIs(front);
    SplitPartsNext(front, c);
    k := |Split(front).words|;
    if i < |front| {
      var j := NothingIsLeftOut(front, i);
      if i < |front| - |Split(front).tail| {
        k := j;
      }
    }
  }

  lemma EndsCleanIff(text: string)
    ensures EndsClean(text) <==> Split(text).tail == ""
  {
  }

  lemma {:induction false} SplitWord(text: string, word: string)
    requires forall c | c in word :: !IsSpace(c)
    ensures Split(text + word) == Scan(Split(text).words, Split(text).tail + word)
  {
    if word == "" {
      assert text + word == text && Split(text).tail + word == Split(text).tail;
    } else {
      var n := |word| - 1;
      SplitWord(text, word[..n]);
      SnocLast(word);
      Assoc(text, word[..n], [word[n]]);
      Assoc(Split(text).tail, word[..n], [word[n]]);
      SplitNext(text + word[..n], word[n]);
    }
  }

  lemma SplitNext(text: string, c: char)
    ensures Split(text + [c]) == Feed(Split(text), c)
  {
    assert (text + [c])[..|text|] == text;
  }

  lemma SplitAt(text: string, i: nat)
    requires i < |text|
    ensures Split(text[..i + 1]) == Feed(Split(text[..i]), text[i])
  {
    assert text[..i + 1][..i] == text[..i];
  }

  /** A word and the space after it. */
  lemma SplitToken(text: string, word: string, c: char)
    requires word != "" && IsSpace(c) && forall d | d in word :: !IsSpace(d)
    ensures Split(text + word + [c]) == Scan(Split(text).words + [Split(text).tail + word], "")
  {
    SplitWord(text, word);
    SplitNext(text + word, c);
  }

  /** A line completes the word the text broke off in and adds the address as a word of its own. */
  lemma SplitLine(text: string, a: Stored)
    requires ValidStored(a)
    ensures Split(text + Line(a)) == Scan(Split(text).words + [Split(text).tail + Encode(a.key), Encode(a.address)], "")
  {
    var k, d := Encode(a.key), Encode(a.address);
    DigitsAreNoSpaces(k);
    DigitsAreNoSpaces(d);
    var half := text + k + " ";
    SplitToken(text, k, ' ');
    SplitToken(half, d, '\n');
    Assoc4(text, k, " ", d, "\n");
    Whole(d);
    TwoMore(Split(text).words, Split(text).tail + k, d);
  }

  lemma DigitsAreNoSpaces(s: string)
    requires forall c | c in s :: DigitValue(c).Some?
    ensures forall c | c in s :: !IsSpace(c)
  {
  }

  // --- reading ---

  /** A word of 64 characters as a key: hexadecimal, and in the range of the curve. */
  function KeyFromHex(word: string): Option<seq<byte>> {
    match Decode(word)
    case None => None
    case Some(key) => if ValidKey(key) then Some(key) else None
  }

  lemma KeyFromHexReadsBack(key: seq<byte>)
    ensures KeyFromHex(Encode(key)) == if ValidKey(key) then Some(key) else None
  {
    DecodeEncode(key);
  }

  datatype Keys = Keys(keys: seq<seq<byte>>, ok: bool)

  /** Words of other lengths are passed over; the first one of length 64 that is no key ends the reading. */
  function ReadWords(words: seq<string>): Keys {
    if words == [] then Keys([], true)
    else ReadWord(ReadWords(words[..|words| - 1]), words[|words| - 1])
  }

  function ReadWord(before: Keys, word: string): Keys {
    if !before.ok || |word| != 64 then before
    else
      match KeyFromHex(word)
      case Some(key) => Keys(before.keys + [key], true)
      case None => Keys(before.keys, false)
  }

  /** The words that become keys: those of 64 characters before the first that is no key. */
  function KeysAt(words: seq<string>): (at: seq<nat>)
    ensures |at| == |ReadWords(words).keys|
    ensures forall k | 0 <= k < |at| :: at[k] < |words|
  {
    if words == [] then []
    else
      var n := |words| - 1;
      var before := KeysAt(words[..n]);
      if ReadWords(words[..n]).ok && |words[n]| == 64 && KeyFromHex(words[n]).Some? then before + [n] else before
  }

  predicate IsKeyWord(word: string) { |word| == 64 && Decode(word).Some? && ValidKey(Decode(word).value) }

  /** There is an error exactly when some word of 64 characters is no key. */
  lemma {:induction false} ReadWordsFail(words: seq<string>)
    ensures ReadWords(words).ok <==> forall i | 0 <= i < |words| && |words[i]| == 64 :: IsKeyWord(words[i])
  {
    if words == [] {
    } else {
      var n := |words| - 1;
      ReadWordsFail(words[..n]);
      SnocLast(words);
      assert forall i | 0 <= i < n :: words[..n][i] == words[i];
    }
  }

  /** Before the first such word every word of 64 characters gives its key, in order. */
  lemma {:induction false} ReadWordsAre(words: seq<string>, k: nat)
    requires k < |KeysAt(words)|
    ensures IsKeyWord(words[KeysAt(words)[k]]) && Decode(words[KeysAt(words)[k]]) == Some(ReadWords(words).keys[k])
    ensures k > 0 ==> KeysAt(words)[k - 1] < KeysAt(words)[k]
  {
    var front := words[..|words| - 1];
    if k < |KeysAt(front)| {
      ReadWordsAre(front, k);
    }
  }

  /** Namely these. */
  lemma {:induction false} KeysAreAt(words: seq<string>, i: nat)
    requires i < |words|
    ensures i in KeysAt(words)
       <==> |words[i]| == 64 && forall j | 0 <= j <= i && |words[j]| == 64 :: IsKeyWord(words[j])
  {
    var n := |words| - 1;
    assert forall j | 0 <= j < n :: words[..n][j] == words[j];
    if i < n {
      KeysAreAt(words[..n], i);
    } else {
      ReadWordsFail(words[..n]);
      assert i !in KeysAt(words[..n]);
    }
  }

  /** A word of 64 digits is a key when the number it stands for is one of the curve's, and the key is that number. */
  lemma KeyWordIs(word: string)
    requires |word| == 64 && forall c | c in word :: DigitValue(c).Some?
    ensures IsKeyWord(word)
       <==> 0 < TextValue(word) < 0xFFFFFFFF_FFFFFFFF_FFFFFFFF_FFFFFFFE_BAAEDCE6_AF48A03B_BFD25E8C_D0364141
    ensures Decode(word).Some? && FromBE(Decode(word).value) == TextValue(word)
  {
    DecodeValue(word);
  }

  lemma ReadWordsSnoc(words: seq<string>, word: string)
    ensures ReadWords(words + [word]) == ReadWord(ReadWords(words), word)
  {
    assert (words + [word])[..|words|] == words;
  }

  lemma {:induction false} FailureStays(words: seq<string>, n: nat)
    requires n <= |words| && !ReadWords(words[..n]).ok
    ensures ReadWords(words) == ReadWords(words[..n])
  {
    if n == |words| {
      assert words[..n] == words;
    } else {
      assert words[..|words| - 1][..n] == words[..n];
      FailureStays(words[..|words| - 1], n);
    }
  }

  method SkipSpaces(text: string, pos: nat, ghost words: seq<string>) returns (i: nat)
    requires pos <= |text| && Split(text[..pos]) == Scan(words, "")
    ensures pos <= i <= |text| && Split(text[..i]) == Scan(words, "")
    ensures i == |text| || !IsSpace(text[i])
  {
    i := pos;
    while i < |text| && IsSpace(text[i])
      invariant pos <= i <= |text| && Split(text[..i]) == Scan(words, "")
    {
      SplitAt(text, i);
      i := i + 1;
    }
  }

  method TakeWord(text: string, pos: nat, ghost words: seq<string>) returns (word: string, i: nat)
    requires pos <= |text| && Split(text[..pos]) == Scan(words, "")
    ensures pos <= i <= |text| && Split(text[..i]) == Scan(words, word)
    ensures i == |text| || IsSpace(text[i])
    ensures word == "" <==> i == pos
  {
    word, i := "", pos;
    while i < |text| && !IsSpace(text[i])
      invariant pos <= i <= |text| && Split(text[..i]) == Scan(words, word)
      invariant word == "" <==> i == pos
    {
      SplitAt(text, i);
      word := word + [text[i]];
      i := i + 1;
    }
  }

  /** One step of the scanner: the next word from `pos` on, "" if there is none, and where it stops. */
  method NextWord(text: string, pos: nat, ghost words: seq<string>) returns (word: string, next: nat)
    requires pos < |text| && Split(text[..pos]) == Scan(words, "")
    ensures pos < next <= |text| && (word == "" ==> next == |text|)
    ensures ScannedTo(text, next, words + if word == "" then [] else [word])
  {
    var from := SkipSpaces(text, pos, words);
    word, next := TakeWord(text, from, words);
    Whole(text);
    if next < |text| {
      SplitAt(text, next);
      next := next + 1;
    } else {
      Whole(words);
    }
  }

  /** Everything before `pos` has been scanned into these words. */
  predicate ScannedTo(text: string, pos: nat, words: seq<string>)
    requires pos <= |text|
  {
    if pos < |text| then Split(text[..pos]) == Scan(words, "") else Words(text) == words
  }

  method ReadPks(text: string) returns (r: Keys)
    ensures r == ReadWords(Words(text))
  {
    r := Keys([], true);
    var pos := 0;
    ghost var seen: seq<string> := [];
    while pos < |text|
      invariant pos <= |text| && r.ok && r == ReadWords(seen)
      invariant ScannedTo(text, pos, seen)
    {
      var word, next := NextWord(text, pos, seen);
      if |word| == 64 {
        ReadWordsSnoc(seen, word);
        var pk := KeyFromHex(word);
        if pk.None? {
          StopsAt(text, seen + [word], next);
          return Keys(r.keys, false);
        }
        r := Keys(r.keys + [pk.value], true);
      }
      if word != "" {
        ReadWordsSnoc(seen, word);
        seen := seen + [word];
      }
      pos := next;
    }
  }

  /** Words already scanned are the first words of the text. */
  lemma {:induction false} FirstWords(text: string, n: nat)
    requires n <= |text|
    ensures Split(text[..n]).words <= Split(text).words
  {
    if n == |text| {
      assert text[..n] == text;
    } else {
      assert text[..|text| - 1][..n] == text[..n];
      FirstWords(text[..|text| - 1], n);
    }
  }

  lemma StopsAt(text: string, seen: seq<string>, next: nat)
    requires next <= |text| && !ReadWords(seen).ok
    requires ScannedTo(text, next, seen)
    ensures ReadWords(Words(text)) == ReadWords(seen)
  {
    if next < |text| {
      FirstWords(text, next);
      assert Words(text)[..|seen|] == seen;
      FailureStays(Words(text), |seen|);
    }
  }

  // --- writing, and reading back ---

  function ReadFile(text: string): Keys { ReadWords(Words(text)) }

  lemma ReadTwo(words: seq<string>, v: string, w: string)
    ensures ReadWords(words + [v, w]) == ReadWord(ReadWord(ReadWords(words), v), w)
  {
    ReadWordsSnoc(words, v);
    ReadWordsSnoc(words + [v], w);
    TwoMore(words, v, w);
  }

  /** Reading a file after one more account was stored adds exactly that account's key, if and only if the
      file did not break off in the middle of a word. */
  lemma LineReadsBackIff(prior: string, a: Stored)
    requires ValidStored(a) && ReadFile(prior).ok
    ensures ReadFile(prior + Line(a)) == Keys(ReadFile(prior).keys + [a.key], true) <==> EndsClean(prior)
    ensures EndsClean(prior + Line(a))
  {
    var s, k, d := Split(prior), Encode(a.key), Encode(a.address);
    SplitLine(prior, a);
    EndsCleanIff(prior);
    ReadTwo(s.words, s.tail + k, d);
    if s.tail == "" {
      assert "" + k == k;
      KeyFromHexReadsBack(a.key);
    } else {
      ReadWordsSnoc(s.words, s.tail);
    }
  }

  /** The file ends cleanly and reads as these keys. */
  predicate Holds(text: string, keys: seq<seq<byte>>) { EndsClean(text) && ReadFile(text) == Keys(keys, true) }

  lemma LinesSnoc(text: string, accounts: seq<Stored>, a: Stored)
    ensures text + Lines(accounts + [a]) == text + Lines(accounts) + Line(a)
    ensures KeysOf(accounts + [a]) == KeysOf(accounts) + [a.key]
  {
    assert (accounts + [a])[..|accounts|] == accounts;
    Assoc(text, Lines(accounts), Line(a));
  }

  /** Whatever accounts are stored after a clean end are read back, every key, once and in order. */
  lemma {:induction false} RoundTrip(prior: string, keys: seq<seq<byte>>, accounts: seq<Stored>)
    requires Holds(prior, keys) && forall i | 0 <= i < |accounts| :: ValidStored(accounts[i])
    ensures Holds(prior + Lines(accounts), keys + KeysOf(accounts))
  {
    if accounts == [] {
      assert prior + "" == prior && keys + [] == keys;
    } else {
      var n := |accounts| - 1;
      RoundTrip(prior, keys, accounts[..n]);
      LineReadsBackIff(prior + Lines(accounts[..n]), accounts[n]);
      SnocLast(accounts);
      LinesSnoc(prior, accounts[..n], accounts[n]);
      Assoc(keys, KeysOf(accounts[..n]), [accounts[n].key]);
    }
  }

  function Min(a: nat, b: nat): nat { if a < b then a else b }

  lemma LineParts(a: Stored)
    ensures var k, d, line := Encode(a.key), Encode(a.address), Line(a);
      "" + k == k <= line && k + " " <= line && k + " " + d <= line && k + " " + d + "\n" == line
  {
    Whole(Encode(a.key));
  }

  /** The file on its disk. A write that does not fit stores what fits and reports an error. */
  class File {
    var contents: string
    var room: nat

    method Write(s: string) returns (ok: bool)
      modifies this
      ensures contents == old(contents) + s[..Min(|s|, old(room))] && room == old(room) - Min(|s|, old(room))
      ensures ok <==> |s| <= old(room)
    {
      var n := Min(|s|, room);
      contents, room, ok := contents + s[..n], room - n, |s| <= room;
    }

    /** The next piece of a line of which `done` has been written behind `before`. */
    method WritePiece(s: string, ghost before: string, ghost done: string, ghost line: string, ghost space: nat)
      returns (ok: bool)
      requires done + s <= line && contents == before + done && |done| + room == space
      modifies this
      ensures ok <==> |done + s| <= space
      ensures if ok then contents == before + (done + s) && |done + s| + room == space
              else contents == before + line[..space] && room == 0
    {
      ok := Write(s);
      if ok {
        Whole(s);
        Assoc(before, done, s);
      } else {
        StoredPart(before, done, s, line, space);
      }
    }

    /** Appends the account's line, or as much of it as fits. */
    method StoreAccount(a: Stored) returns (ok: bool)
      modifies this
      ensures var line := Encode(a.key) + " " + Encode(a.address) + "\n";
        var n := if |line| <= old(room) then |line| else old(room);
        contents == old(contents) + line[..n] && room == old(room) - n && (ok <==> |line| <= old(room))
    {
      ghost var before, space, line := contents, room, Line(a);
      ghost var k, d := Encode(a.key), Encode(a.address);
      LineParts(a);
      Whole(before);
      ok := WritePiece(Encode(a.key), before, "", line, space);
      if !ok { return; }
      ok := WritePiece(" ", before, k, line, space);
      if !ok { return; }
      ok := WritePiece(Encode(a.address), before, k + " ", line, space);
      if !ok { return; }
      ok := WritePiece("\n", before, k + " " + d, line, space);
      Whole(line);
    }

    /** retrieveAccounts and the creation of the missing accounts: at most six keys are taken from the file
        that is configured, the missing ones are generated and stored in this file, which may be another one.
        None when there is no file to read, or a key cannot be read or stored. */
    method SetUpAccounts(configured: File?, generated: seq<Stored>) returns (keys: Option<seq<seq<byte>>>)
      requires |generated| >= NUM_FUNDED_ACCOUNTS
      modifies this
      ensures configured == null ==> keys.None? && contents == old(contents)
      ensures configured != null ==>
        var r := ReadFile(old(configured.contents));
        if !r.ok then keys.None? && contents == old(contents)
        else
          var lines := Lines(Missing(r.keys, generated));
          && contents == old(contents) + lines[..Min(|lines|, old(room))]
          && keys == if |lines| <= old(room) then Some(AccountsOf(r.keys, generated)) else None
      ensures keys.Some? ==>
        && configured != null && |keys.value| == 6
        && var read := ReadFile(old(configured.contents)).keys;
        forall i | 0 <= i < 6 :: keys.value[i] == if i < |read| then read[i] else generated[i - |read|].key
    {
      if configured == null {
        return None;
      }
      var r := ReadPks(configured.contents);
      if !r.ok {
        return None;
      }
      var accounts := RetrieveAccounts(r.keys);
      var created := Missing(r.keys, generated);
      var ok := StoreAccounts(created);
      if !ok {
        return None;
      }
      keys := Some(accounts + KeysOf(created));
      AccountsAre(r.keys, generated);
    }

    static method RetrieveAccounts(keys: seq<seq<byte>>) returns (accounts: seq<seq<byte>>)
      ensures accounts == Retrieved(keys) == if |keys| <= 6 then keys else keys[..6]
    {
      accounts := [];
      for i := 0 to |keys|
        invariant |accounts| == i && i < NUM_FUNDED_ACCOUNTS && accounts == keys[..i]
      {
        accounts := accounts + [keys[i]];
        if |accounts| == NUM_FUNDED_ACCOUNTS {
          break;
        }
      }
    }

    method StoreAccounts(created: seq<Stored>) returns (ok: bool)
      modifies this
      ensures var lines := Lines(created);
        contents == old(contents) + lines[..Min(|lines|, old(room))] && (ok <==> |lines| <= old(room))
    {
      ghost var before, space := contents, room;
      Whole(contents);
      for i := 0 to |created|
        invariant contents == before + Lines(created[..i]) && |Lines(created[..i])| + room == space
      {
        ghost var prior, line := Lines(created[..i]), Line(created[i]);
        LinesNext(created, i);
        LinesGrow(created, i + 1);
        Assoc(before, prior, line);
        Whole(line);
        ok := StoreAccount(created[i]);
        if !ok {
          StoredPart(before, prior, line, Lines(created), space);
          return;
        }
      }
      Whole(created);
      Whole(Lines(created));
      ok := true;
    }
  }

  lemma LinesNext(created: seq<Stored>, i: nat)
    requires i < |created|
    ensures Lines(created[..i + 1]) == Lines(created[..i]) + Line(created[i])
  {
    TakeTake(created, i, i + 1);
  }

  lemma StoredPart(before: string, a: string, line: string, all: string, space: nat)
    requires a + line <= all && |a| <= space < |a| + |line|
    ensures before + a + line[..space - |a|] == before + all[..space]
  {
    assert all[..space] == (a + line)[..space] == a + line[..space - |a|];
  }

  function Retrieved(keys: seq<seq<byte>>): seq<seq<byte>> { keys[..Min(|keys|, NUM_FUNDED_ACCOUNTS)] }

  function Missing(keys: seq<seq<byte>>, generated: seq<Stored>): seq<Stored>
    requires |generated| >= NUM_FUNDED_ACCOUNTS
  {
    generated[..NUM_FUNDED_ACCOUNTS - |Retrieved(keys)|]
  }

  /** The accounts of a start: those retrieved, then the new ones. */
  function AccountsOf(keys: seq<seq<byte>>, generated: seq<Stored>): (r: seq<seq<byte>>)
    requires |generated| >= NUM_FUNDED_ACCOUNTS
    ensures |r| == NUM_FUNDED_ACCOUNTS
  {
    Retrieved(keys) + KeysOf(Missing(keys, generated))
  }

  lemma AccountsAre(keys: seq<seq<byte>>, generated: seq<Stored>)
    requires |generated| >= NUM_FUNDED_ACCOUNTS
    ensures forall i | 0 <= i < 6 ::
              AccountsOf(keys, generated)[i] == if i < |keys| then keys[i] else generated[i - |keys|].key
  {
  }

  lemma {:induction false} LinesGrow(accounts: seq<Stored>, n: nat)
    requires n <= |accounts|
    ensures Lines(accounts[..n]) <= Lines(accounts)
  {
    if n == |accounts| {
      Whole(accounts);
    } else {
      TakeTake(accounts, n, |accounts| - 1);
      LinesGrow(accounts[..|accounts| - 1], n);
    }
  }

  // --- restarts ---

  /** All keys that occur are different, as random keys are. */
  predicate AllDifferent(keys: seq<seq<byte>>) {
    forall i, j | 0 <= i < j < |keys| :: keys[i] != keys[j]
  }

  lemma {:induction false} LinesCons(accounts: seq<Stored>)
    requires accounts != []
    ensures Lines(accounts) == Line(accounts[0]) + Lines(accounts[1..])
  {
    var n := |accounts| - 1;
    if n == 0 {
      assert accounts[..0] == [] && accounts[1..] == [];
      assert "" + Line(accounts[0]) == Line(accounts[0]) + "";
    } else {
      LinesCons(accounts[..n]);
      assert accounts[..n][1..] == accounts[1..][..n - 1];
      Assoc(Line(accounts[0]), Lines(accounts[1..][..n - 1]), Line(accounts[n]));
    }
  }

  /** What is read of the words before a broken-off one: all keys, or all but the last. */
  function Kept(prior: string): seq<seq<byte>> { ReadWords(Split(prior).words).keys }

  lemma BrokenWordRuinsLine(prior: string, a: Stored)
    requires !EndsClean(prior) && ReadFile(prior).ok && ValidStored(a)
    ensures Holds(prior + Line(a), Kept(prior))
    ensures Kept(prior) <= ReadFile(prior).keys && |Kept(prior)| + 1 >= |ReadFile(prior).keys|
  {
    var s := Split(prior);
    SplitLine(prior, a);
    EndsCleanIff(prior);
    EndsCleanIff(prior + Line(a));
    ReadTwo(s.words, s.tail + Encode(a.key), Encode(a.address));
    ReadWordsSnoc(s.words, s.tail);
  }

  /** The number 1 as a private key. */
  function KeyOne(): seq<byte> { Zeros(31) + [1] }

  lemma KeyOneIsValid()
    ensures ValidKey(KeyOne())
  {
    var zeros := Zeros(31);
    FromLEZero(Reverse(zeros));
    FromBEReverse(Reverse(zeros));
    assert Reverse(Reverse(zeros)) == zeros;
    assert KeyOne()[..31] == zeros;
  }

  lemma OneCharacter()
    ensures Split("x") == Scan([], "x") && !EndsClean("x") && ReadFile("x") == Keys([], true)
  {
    SplitNext("", 'x');
    assert "" + ['x'] == "x" && [] + ["x"] == ["x"];
    ReadWordsSnoc([], "x");
  }

  /** A file of one character without a newline: the account stored next is not read back. */
  lemma KeyAfterBrokenWordIsLost()
    ensures var a := Stored(KeyOne(), Zeros(20));
      ValidStored(a) && ReadFile("x") == Keys([], true) && ReadFile("x" + Line(a)) == Keys([], true)
  {
    KeyOneIsValid();
    OneCharacter();
    BrokenWordRuinsLine("x", Stored(KeyOne(), Zeros(20)));
  }

  /** After a broken-off word the first key stored is lost, and so is the key that word may have been. */
  lemma BrokenWordLosesKeys(prior: string, accounts: seq<Stored>)
    requires !EndsClean(prior) && ReadFile(prior).ok && accounts != []
    requires forall i | 0 <= i < |accounts| :: ValidStored(accounts[i])
    ensures Holds(prior + Lines(accounts), Kept(prior) + KeysOf(accounts[1..]))
    ensures Kept(prior) <= ReadFile(prior).keys && |Kept(prior)| + 1 >= |ReadFile(prior).keys|
  {
    BrokenWordRuinsLine(prior, accounts[0]);
    RoundTrip(prior + Line(accounts[0]), Kept(prior), accounts[1..]);
    LinesCons(accounts);
    Assoc(prior, Line(accounts[0]), Lines(accounts[1..]));
  }

  /** The position after the kept keys tells the two starts apart. */
  lemma StartsDiffer(keys: seq<seq<byte>>, kept: seq<seq<byte>>, first: seq<Stored>, second: seq<Stored>)
    requires |first| >= NUM_FUNDED_ACCOUNTS && |second| >= NUM_FUNDED_ACCOUNTS && |keys| < NUM_FUNDED_ACCOUNTS
    requires AllDifferent(keys + KeysOf(first) + KeysOf(second))
    requires kept <= keys && |kept| + 1 >= |keys|
    ensures AccountsOf(kept + KeysOf(Missing(keys, first)[1..]), second) != AccountsOf(keys, first)
  {
    var all := keys + KeysOf(first) + KeysOf(second);
    var created, p := Missing(keys, first), |kept|;
    var one, two := AccountsOf(keys, first), AccountsOf(kept + KeysOf(created[1..]), second);
    var here := if p < |keys| then p else |keys|;
    assert one[p] == all[here];
    if |created| > 1 {
      assert two[p] == created[1].key == all[|keys| + 1];
    } else {
      assert two[p] == second[0].key == all[|keys| + |first|];
    }
  }

  lemma EnoughKeys(keys: seq<seq<byte>>, first: seq<Stored>, second: seq<Stored>)
    requires |first| >= NUM_FUNDED_ACCOUNTS && |second| >= NUM_FUNDED_ACCOUNTS && |keys| >= NUM_FUNDED_ACCOUNTS
    ensures Missing(keys, first) == [] && AccountsOf(keys, first) == AccountsOf(keys, second)
  {
  }

  lemma NothingMissing(keys: seq<seq<byte>>, generated: seq<Stored>)
    requires |keys| == NUM_FUNDED_ACCOUNTS && |generated| >= NUM_FUNDED_ACCOUNTS
    ensures AccountsOf(keys, generated) == keys
  {
    assert KeysOf(Missing(keys, generated)) == [];
  }

  /** The keys a restart finds after a start that used `first` for what was missing. */
  function Again(prior: string, first: seq<Stored>): Keys
    requires |first| >= NUM_FUNDED_ACCOUNTS
  {
    ReadFile(prior + Lines(Missing(ReadFile(prior).keys, first)))
  }

  predicate SameAccounts(prior: string, first: seq<Stored>, second: seq<Stored>)
    requires |first| >= NUM_FUNDED_ACCOUNTS && |second| >= NUM_FUNDED_ACCOUNTS
  {
    AccountsOf(Again(prior, first).keys, second) == AccountsOf(ReadFile(prior).keys, first)
  }

  lemma CleanAgain(prior: string, first: seq<Stored>)
    requires |first| >= NUM_FUNDED_ACCOUNTS && ReadFile(prior).ok && EndsClean(prior)
    requires forall i | 0 <= i < |first| :: ValidStored(first[i])
    ensures Again(prior, first)
         == Keys(ReadFile(prior).keys + KeysOf(Missing(ReadFile(prior).keys, first)), true)
  {
    RoundTrip(prior, ReadFile(prior).keys, Missing(ReadFile(prior).keys, first));
  }

  lemma AddingMissing(keys: seq<seq<byte>>, first: seq<Stored>, second: seq<Stored>)
    requires |first| >= NUM_FUNDED_ACCOUNTS && |second| >= NUM_FUNDED_ACCOUNTS && |keys| < NUM_FUNDED_ACCOUNTS
    ensures AccountsOf(keys + KeysOf(Missing(keys, first)), second) == AccountsOf(keys, first)
  {
    NothingMissing(keys + KeysOf(Missing(keys, first)), second);
  }

  lemma CleanRestart(prior: string, first: seq<Stored>, second: seq<Stored>)
    requires |first| >= NUM_FUNDED_ACCOUNTS && |second| >= NUM_FUNDED_ACCOUNTS && ReadFile(prior).ok
    requires forall i | 0 <= i < |first| :: ValidStored(first[i])
    requires |ReadFile(prior).keys| < NUM_FUNDED_ACCOUNTS && EndsClean(prior)
    ensures Again(prior, first).ok && SameAccounts(prior, first, second)
  {
    CleanAgain(prior, first);
    AddingMissing(ReadFile(prior).keys, first, second);
  }

  lemma BrokenRestart(prior: string, first: seq<Stored>, second: seq<Stored>)
    requires |first| >= NUM_FUNDED_ACCOUNTS && |second| >= NUM_FUNDED_ACCOUNTS && ReadFile(prior).ok
    requires forall i | 0 <= i < |first| :: ValidStored(first[i])
    requires AllDifferent(ReadFile(prior).keys + KeysOf(first) + KeysOf(second))
    requires |ReadFile(prior).keys| < NUM_FUNDED_ACCOUNTS && !EndsClean(prior)
    ensures Again(prior, first).ok && !SameAccounts(prior, first, second)
  {
    var keys := ReadFile(prior).keys;
    BrokenWordLosesKeys(prior, Missing(keys, first));
    StartsDiffer(keys, Kept(prior), first, second);
  }

  /** A restart uses the same accounts as the start before it exactly when that start had nothing to add
      or found a file that did not break off in the middle of a word. */
  lemma RestartKeepsAccountsIff(prior: string, first: seq<Stored>, second: seq<Stored>)
    requires |first| >= NUM_FUNDED_ACCOUNTS && |second| >= NUM_FUNDED_ACCOUNTS && ReadFile(prior).ok
    requires forall i | 0 <= i < |first| :: ValidStored(first[i])
    requires AllDifferent(ReadFile(prior).keys + KeysOf(first) + KeysOf(second))
    ensures Again(prior, first).ok
    ensures SameAccounts(prior, first, second) <==> |ReadFile(prior).keys| >= NUM_FUNDED_ACCOUNTS || EndsClean(prior)
  {
    if |ReadFile(prior).keys| >= NUM_FUNDED_ACCOUNTS {
      Whole(prior);
      EnoughKeys(ReadFile(prior).keys, first, second);
    } else if EndsClean(prior) {
      CleanRestart(prior, first, second);
    } else {
      BrokenRestart(prior, first, second);
    }
  }

  /** When new keys go to another file than the one that is read, the restart reads what the start read, and
      uses the same accounts exactly when that start had nothing to add. */
  lemma RestartElsewhereIff(keys: seq<seq<byte>>, first: seq<Stored>, second: seq<Stored>)
    requires |first| >= NUM_FUNDED_ACCOUNTS && |second| >= NUM_FUNDED_ACCOUNTS
    requires AllDifferent(keys + KeysOf(first) + KeysOf(second))
    ensures AccountsOf(keys, second) == AccountsOf(keys, first) <==> |keys| >= NUM_FUNDED_ACCOUNTS
  {
    if |keys| >= NUM_FUNDED_ACCOUNTS {
      EnoughKeys(keys, first, second);
    } else {
      var all := keys + KeysOf(first) + KeysOf(second);
      assert AccountsOf(keys, first)[|keys|] == first[0].key == all[|keys|];
      assert AccountsOf(keys, second)[|keys|] == second[0].key == all[|keys| + |first|];
    }
  }

  predicate UsableAccounts(generated: seq<Stored>) {
    |generated| >= NUM_FUNDED_ACCOUNTS && forall i | 0 <= i < |generated| :: ValidStored(generated[i])
  }

  /** A start and a restart: keys are read from the configured file and stored in `pkHex`, which may be the same
      one. If both starts succeed they use the same accounts exactly when the first had nothing to add, or added
      it to the file that is read and found that file ending cleanly. */
  method StartTwice(configured: File, pkHex: File, first: seq<Stored>, second: seq<Stored>)
    returns (a: Option<seq<seq<byte>>>, b: Option<seq<seq<byte>>>)
    requires UsableAccounts(first) && UsableAccounts(second)
    requires AllDifferent(ReadFile(configured.contents).keys + KeysOf(first) + KeysOf(second))
    modifies pkHex
    ensures a.Some? && b.Some? ==>
      (a == b <==> || |ReadFile(old(configured.contents)).keys| >= NUM_FUNDED_ACCOUNTS
                   || (configured == pkHex && EndsClean(old(configured.contents))))
  {
    ghost var prior := configured.contents;
    a := pkHex.SetUpAccounts(configured, first);
    b := pkHex.SetUpAccounts(configured, second);
    if a.Some? && b.Some? {
      if configured == pkHex {
        RestartKeepsAccountsIff(prior, first, second);
        Whole(Lines(Missing(ReadFile(prior).keys, first)));
      } else {
        RestartElsewhereIff(ReadFile(prior).keys, first, second);
      }
    }
  }
}
