/**
 What the bytes of an account store mean: whose key and name open a sealed entry,
 how a store in the clear is read, and what trimming leaves (linrdp/src/sam.rs).
 */
module SamText {
  import opened Prelude
  import opened Sam

  // ----- Who can open an entry -----

  /** An authenticated cipher: with another key or another account name there is
      nothing to read. */
  ghost predicate Authentic(c: Crypto) {
    forall key, nonce, account, password, key', account' ::
      key' != key || account' != account ==>
        c.decrypt(key', nonce, account', c.encrypt(key, nonce, account, password)) == None
  }

  /** A sealed password opens if and only if it is read for its own account and
      with the key it was sealed under; so a line moved to another account is
      worthless. */
  lemma OpensIff(c: Crypto, keyFor: KeyMode -> Bytes, key: Bytes, mode: KeyMode, account: string, password: string,
                 nonce: Nonce, reader: string)
    requires Works(c) && Authentic(c)
    ensures Open(c, Seal(c, key, mode, account, password, nonce), reader, keyFor)
         == if reader == account && keyFor(mode) == key then Some(password) else None
  {
    var sealed := c.encrypt(key, nonce, account, password);
    var packed := nonce + sealed;
    SplitJoined("v1", '.', Tag(mode) + ['.'] + c.encode(packed));
    SplitJoined(Tag(mode), '.', c.encode(packed));
    assert packed[..12] == nonce && packed[12..] == sealed;
  }

  // ----- A store in the clear -----

  function Break(crlf: bool): string { if crlf then "\r\n" else "\n" }

  function Joined(lines: seq<string>, crlf: bool): string {
    if lines == [] then "" else lines[0] + Break(crlf) + Joined(lines[1..], crlf)
  }

  /** A line that line breaks of both kinds leave as it is. */
  predicate Plain(line: string) { '\n' !in line && (line == "" || line[|line| - 1] != '\r') }

  /** One line, as `str::lines` cuts it off. */
  lemma FirstLine(line: string, rest: string, crlf: bool)
    requires Plain(line)
    ensures Lines(line + Break(crlf) + rest) == [line] + Lines(rest)
  {
    if crlf {
      var shown := line + "\r";
      assert shown[|shown| - 1] == '\r' && shown[..|shown| - 1] == line;
      assert line + Break(crlf) + rest == shown + "\n" + rest;
      LinesNext(shown, rest);
    } else {
      LinesNext(line, rest);
    }
  }

  /** Lines come back whole, without their breaks. */
  lemma {:induction false} LinesOfJoined(lines: seq<string>, crlf: bool)
    requires forall i :: 0 <= i < |lines| ==> Plain(lines[i])
    ensures Lines(Joined(lines, crlf)) == lines
    decreases |lines|
  {
    if lines != [] {
      FirstLine(lines[0], Joined(lines[1..], crlf), crlf);
      LinesOfJoined(lines[1..], crlf);
    }
  }

  function ClearLine(entry: (string, string)): string { entry.0 + [':'] + entry.1 }

  function ClearLines(order: Listing): seq<string> { seq(|order|, i requires 0 <= i < |order| => ClearLine(order[i])) }

  ghost predicate ClearListing(order: Listing) {
    forall i :: 0 <= i < |order| ==> GoodName(order[i].0) && Plain(order[i].1)
  }

  lemma ClearLineIs(entry: (string, string))
    requires GoodName(entry.0) && Plain(entry.1)
    ensures Plain(ClearLine(entry)) && ClearLine(entry) != SEAL_HEADER
    ensures SplitOnce(ClearLine(entry), ':') == Some((entry.0, entry.1))
  {
    var line := ClearLine(entry);
    SplitJoined(entry.0, ':', entry.1);
    assert line[|entry.0|] == ':';
    assert ':' !in SEAL_HEADER;
    assert line[|line| - 1] == if entry.1 == "" then ':' else entry.1[|entry.1| - 1];
  }

  lemma {:induction false} LearnsClear(c: Crypto, keyFor: KeyMode -> Bytes, order: Listing, i: nat)
    requires ClearListing(order) && i <= |order|
    ensures LearnAll(c, ClearLines(order)[i..], false, keyFor, MapOf(order, i)) == MapOf(order, |order|)
    decreases |order| - i
  {
    if i < |order| {
      var lines := ClearLines(order)[i..];
      ClearLineIs(order[i]);
      assert lines[0] == ClearLine(order[i]) && lines[1..] == ClearLines(order)[i + 1..];
      LearnsClear(c, keyFor, order, i + 1);
    }
  }

  /** A store in the clear, with line breaks of either kind, is read line by line:
      each account gets the rest of its last line; it counts as legacy unless it
      is empty. */
  lemma ClearStoreReads(c: Crypto, keyFor: KeyMode -> Bytes, order: Listing, crlf: bool)
    requires ClearListing(order)
    ensures var body := Joined(ClearLines(order), crlf);
            Parsed(c, body, keyFor) == MapOf(order, |order|) && (HasLegacy(body) <==> order != [])
  {
    var lines := ClearLines(order);
    var body := Joined(lines, crlf);
    forall i | 0 <= i < |lines|
      ensures Plain(lines[i]) && lines[i] != SEAL_HEADER
    {
      ClearLineIs(order[i]);
    }
    LinesOfJoined(lines, crlf);
    LearnsClear(c, keyFor, order, 0);
    assert lines[0..] == lines;
    if order != [] {
      assert body[|order[0].0|] == ':';
    }
  }

  /** The last line of an account wins. */
  lemma {:induction false} LastLineWins(order: Listing, n: nat, k: nat)
    requires k < n <= |order| && forall i :: k < i < n ==> order[i].0 != order[k].0
    ensures order[k].0 in MapOf(order, n) && MapOf(order, n)[order[k].0] == order[k].1
  {
    if k < n - 1 { LastLineWins(order, n - 1, k); }
  }

  // ----- Trimming and the key input -----

  ghost predicate Blank(s: string) { forall i :: 0 <= i < |s| ==> IsSpace(s[i]) }

  lemma {:induction false} TrimStartIs(s: string) returns (front: string)
    ensures s == front + TrimStart(s) && Blank(front)
    ensures TrimStart(s) == "" || !IsSpace(TrimStart(s)[0])
  {
    if s != "" && IsSpace(s[0]) {
      var rest := TrimStartIs(s[1..]);
      front := [s[0]] + rest;
      assert s == [s[0]] + s[1..];
    } else {
      front := "";
    }
  }

  lemma {:induction false} TrimEndIs(s: string) returns (back: string)
    ensures s == TrimEnd(s) + back && Blank(back)
    ensures TrimEnd(s) == "" || !IsSpace(TrimEnd(s)[|TrimEnd(s)| - 1])
    decreases |s|
  {
    if s != "" && IsSpace(s[|s| - 1]) {
      var rest := TrimEndIs(s[..|s| - 1]);
      back := rest + [s[|s| - 1]];
      assert s == s[..|s| - 1] + [s[|s| - 1]];
    } else {
      back := "";
    }
  }

  /** Trimming takes white space off both ends and nothing else. */
  lemma TrimIs(s: string) returns (front: string, back: string)
    ensures s == front + Trim(s) + back && Blank(front) && Blank(back)
    ensures Trim(s) == "" || (!IsSpace(Trim(s)[0]) && !IsSpace(Trim(s)[|Trim(s)| - 1]))
  {
    front := TrimStartIs(s);
    back := TrimEndIs(TrimStart(s));
    assert s == front + (Trim(s) + back);
  }

  /** Whether a store is to be migrated: it has something in it and does not
      start with the header. */
  lemma LegacyIff(body: string)
    ensures HasLegacy(body) <==> Trim(body) != "" && (Lines(body) == [] || Lines(body)[0] != "#linrdp-sam v1")
  {
    var front, back := TrimIs(body);
    if Trim(body) != "" {
      assert body[|front|] == Trim(body)[0];
    }
  }

  /** The key input: the board's uuid, if there is one, and the machine's id. */
  lemma IkmIs(productUuid: string, machineId: string)
    ensures var (ikm, mode) := BuildIkm(productUuid, machineId);
            && (mode.MachineId? <==> Blank(productUuid))
            && ikm == (if Blank(productUuid) then "" else Trim(productUuid)) + Trim(machineId)
  {
    TrimTwice(productUuid);
    TrimTwice(machineId);
    var front, back := TrimIs(productUuid);
    if Trim(productUuid) != "" {
      assert productUuid[|front|] == Trim(productUuid)[0];
    }
    assert "" + Trim(machineId) == Trim(machineId);
  }
}
