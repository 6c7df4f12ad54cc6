/**
 The account store's file format (linrdp/src/sam.rs: `seal`, `open`,
 `parse_body`, `render_body`, `parse_names`, `body_has_legacy`, `build_ikm`,
 `ikm_for_mode`), over an abstract cipher and text encoding.
 */
module Sam {
  import opened Prelude

  // ----- Text helpers -----

  /** The first position of `c`, or the length. */
  function Find(s: string, c: char): (i: nat)
    ensures i <= |s| && (i < |s| ==> s[i] == c) && c !in s[..i]
  {
    if s == "" || s[0] == c then 0
    else
      assert s[..1 + Find(s[1..], c)] == [s[0]] + s[1..][..Find(s[1..], c)];
      1 + Find(s[1..], c)
  }

  lemma {:induction false} FindIn(prefix: string, c: char, rest: string)
    requires c !in prefix
    ensures Find(prefix + [c] + rest, c) == |prefix|
  {
    var s := prefix + [c] + rest;
    if prefix == "" {
      assert s[0] == c;
    } else {
      assert s[1..] == prefix[1..] + [c] + rest;
      FindIn(prefix[1..], c, rest);
    }
  }

  /** Without the CR of a CRLF. */
  function StripCr(line: string): string {
    if line != "" && line[|line| - 1] == '\r' then line[..|line| - 1] else line
  }

  /** `str::lines`. */
  function Lines(s: string): seq<string>
    decreases |s|
  {
    if s == "" then []
    else
      var i := Find(s, '\n');
      if i < |s| then [StripCr(s[..i])] + Lines(s[i + 1..]) else [s]
  }

  lemma LinesNext(line: string, rest: string)
    requires '\n' !in line
    ensures Lines(line + "\n" + rest) == [StripCr(line)] + Lines(rest)
  {
    var s := line + ['\n'] + rest;
    assert s == line + "\n" + rest;
    FindIn(line, '\n', rest);
    assert s[..|line|] == line && s[|line| + 1..] == rest;
  }

  lemma {:induction false} LinesHaveNoBreak(s: string)
    ensures forall i :: 0 <= i < |Lines(s)| ==> '\n' !in Lines(s)[i]
    decreases |s|
  {
    if s != "" {
      var i := Find(s, '\n');
      if i < |s| {
        LinesHaveNoBreak(s[i + 1..]);
        assert '\n' !in StripCr(s[..i]);
      } else {
        assert s[..i] == s;
      }
    }
  }

  /** `split_once(':')`. */
  function SplitOnce(line: string, c: char): Option<(string, string)> {
    var i := Find(line, c);
    if i < |line| then Some((line[..i], line[i + 1..])) else None
  }

  lemma SplitJoined(user: string, c: char, rest: string)
    requires c !in user
    ensures SplitOnce(user + [c] + rest, c) == Some((user, rest))
  {
    var s := user + [c] + rest;
    FindIn(user, c, rest);
    assert s[..|user|] == user && s[|user| + 1..] == rest;
  }

  // ----- Sealed entries -----

  type Bytes = seq<byte>
  type Nonce = n: seq<byte> | |n| == 12 witness seq(12, _ => 0)

  datatype KeyMode = Dmi | MachineId

  function Tag(mode: KeyMode): string { if mode.Dmi? then "d" else "m" }

  function FromTag(tag: string): Option<KeyMode> {
    if tag == "d" then Some(Dmi) else if tag == "m" then Some(MachineId) else None
  }

  /** AES-256-GCM with associated data, and base64url; not modelled further. */
  datatype Crypto = Crypto(
    encrypt: (Bytes, Bytes, string, string) -> Bytes, decrypt: (Bytes, Bytes, string, Bytes) -> Option<string>,
    encode: Bytes -> string, decode: string -> Option<Bytes>)

  ghost predicate Inverts(c: Crypto) {
    && (forall key, nonce, account, password ::
          c.decrypt(key, nonce, account, c.encrypt(key, nonce, account, password)) == Some(password))
    && forall bytes :: c.decode(c.encode(bytes)) == Some(bytes)
  }

  ghost predicate Works(c: Crypto) {
    && Inverts(c) && (forall key, nonce, account, password :: c.encrypt(key, nonce, account, password) != [])
    && forall bytes :: '\n' !in c.encode(bytes) && '\r' !in c.encode(bytes)
  }

  function Seal(c: Crypto, key: Bytes, mode: KeyMode, account: string, password: string, nonce: Nonce): string {
    "v1" + ['.'] + (Tag(mode) + ['.'] + c.encode(nonce + c.encrypt(key, nonce, account, password)))
  }

  function Unpack(c: Crypto, packed: Bytes, account: string, key: Bytes): Option<string> {
    if |packed| <= 12 then None else c.decrypt(key, packed[..12], account, packed[12..])
  }

  function Open(c: Crypto, blob: string, account: string, keyFor: KeyMode -> Bytes): Option<string> {
    var parts := SplitOnce(blob, '.');
    if parts.None? || parts.value.0 != "v1" then None
    else
      var tagged := SplitOnce(parts.value.1, '.');
      if tagged.None? || FromTag(tagged.value.0).None? || c.decode(tagged.value.1).None? then None
      else Unpack(c, c.decode(tagged.value.1).value, account, keyFor(FromTag(tagged.value.0).value))
  }

  lemma UnpackSealed(c: Crypto, key: Bytes, account: string, password: string, nonce: Nonce)
    requires Works(c)
    ensures Unpack(c, nonce + c.encrypt(key, nonce, account, password), account, key) == Some(password)
  {
    var packed := nonce + c.encrypt(key, nonce, account, password);
    assert packed[..12] == nonce && packed[12..] == c.encrypt(key, nonce, account, password);
  }

  /** A sealed password opens, for its account, with the key of the mode it names. */
  lemma OpenSealed(c: Crypto, keyFor: KeyMode -> Bytes, mode: KeyMode, account: string, password: string, nonce: Nonce)
    requires Works(c)
    ensures Open(c, Seal(c, keyFor(mode), mode, account, password, nonce), account, keyFor) == Some(password)
  {
    var packed := nonce + c.encrypt(keyFor(mode), nonce, account, password);
    SplitJoined("v1", '.', Tag(mode) + ['.'] + c.encode(packed));
    SplitJoined(Tag(mode), '.', c.encode(packed));
    UnpackSealed(c, keyFor(mode), account, password, nonce);
  }

  // ----- Store bodies -----

  const SEAL_HEADER: string := "#linrdp-sam v1"

  predicate IsSealed(body: string) { Lines(body) != [] && Lines(body)[0] == SEAL_HEADER }

  function Entries(body: string): seq<string> { if IsSealed(body) then Lines(body)[1..] else Lines(body) }

  type Accounts = map<string, string>

  /** One line read into the map. */
  function Learn(c: Crypto, line: string, sealed: bool, keyFor: KeyMode -> Bytes, m: Accounts): Accounts {
    var parts := SplitOnce(line, ':');
    if parts.None? || parts.value.0 == "" then m
    else if !sealed then m[parts.value.0 := parts.value.1]
    else
      var password := Open(c, parts.value.1, parts.value.0, keyFor);
      if password.Some? then m[parts.value.0 := password.value] else m
  }

  function LearnAll(c: Crypto, lines: seq<string>, sealed: bool, keyFor: KeyMode -> Bytes, m: Accounts): Accounts
    decreases |lines|
  {
    if lines == [] then m else LearnAll(c, lines[1..], sealed, keyFor, Learn(c, lines[0], sealed, keyFor, m))
  }

  function Parsed(c: Crypto, body: string, keyFor: KeyMode -> Bytes): Accounts {
    LearnAll(c, Entries(body), IsSealed(body), keyFor, map[])
  }

  /** `parse_body`. */
  method ParseBody(c: Crypto, body: string, keyFor: KeyMode -> Bytes) returns (m: Accounts)
    ensures m == Parsed(c, body, keyFor)
  {
    m := map[];
    var lines, sealed := Entries(body), IsSealed(body);
    while lines != []
      invariant LearnAll(c, lines, sealed, keyFor, m) == Parsed(c, body, keyFor)
      decreases |lines|
    {
      var parts := SplitOnce(lines[0], ':');
      if parts.Some? && parts.value.0 != "" {
        var (user, rest) := parts.value;
        if sealed {
          var password := Open(c, rest, user, keyFor);
          if password.Some? {
            m := m[user := password.value];
          }
        } else {
          m := m[user := rest];
        }
      }
      lines := lines[1..];
    }
  }

  /** One map in the order its iterator yields it. */
  type Listing = seq<(string, string)>

  ghost predicate Lists(order: Listing, m: Accounts) {
    && (forall i :: 0 <= i < |order| ==> order[i].0 in m && m[order[i].0] == order[i].1)
    && (forall user :: user in m ==> exists i :: 0 <= i < |order| && order[i].0 == user)
    && forall i, j :: 0 <= i < j < |order| ==> order[i].0 != order[j].0
  }

  function Line(c: Crypto, key: Bytes, mode: KeyMode, entry: (string, string), nonce: Nonce): string {
    entry.0 + [':'] + Seal(c, key, mode, entry.0, entry.1, nonce)
  }

  /** The lines from entry `i` on. */
  function RenderedFrom(c: Crypto, key: Bytes, mode: KeyMode, order: Listing, nonces: nat -> Nonce, i: nat): string
    requires i <= |order|
    decreases |order| - i
  {
    if i == |order| then ""
    else Line(c, key, mode, order[i], nonces(i)) + "\n" + RenderedFrom(c, key, mode, order, nonces, i + 1)
  }

  function Rendered(c: Crypto, key: Bytes, mode: KeyMode, order: Listing, nonces: nat -> Nonce): string {
    SEAL_HEADER + "\n" + RenderedFrom(c, key, mode, order, nonces, 0)
  }

  lemma Regroup(a: string, b: string, c: string)
    ensures a + (b + c) == a + b + c
  {
  }

  /** `render_body`, for the order the map is iterated in. */
  method RenderBody(c: Crypto, key: Bytes, mode: KeyMode, order: Listing, nonces: nat -> Nonce) returns (body: string)
    ensures body == Rendered(c, key, mode, order, nonces)
  {
    body := SEAL_HEADER + "\n";
    var i := 0;
    while i < |order|
      invariant i <= |order|
      invariant body + RenderedFrom(c, key, mode, order, nonces, i) == Rendered(c, key, mode, order, nonces)
    {
      var line := order[i].0 + [':'] + Seal(c, key, mode, order[i].0, order[i].1, nonces(i)) + "\n";
      Regroup(body, line, RenderedFrom(c, key, mode, order, nonces, i + 1));
      body := body + line;
      i := i + 1;
    }
  }

  // ----- Reading back what was written -----

  predicate GoodName(user: string) { user != "" && ':' !in user && '\n' !in user }

  ghost predicate GoodNames(m: Accounts) { forall user :: user in m ==> GoodName(user) }

  ghost predicate GoodListing(order: Listing) { forall i :: 0 <= i < |order| ==> GoodName(order[i].0) }

  function EntryLines(c: Crypto, key: Bytes, mode: KeyMode, order: Listing, nonces: nat -> Nonce, i: nat): seq<string>
    requires i <= |order|
    decreases |order| - i
  {
    if i == |order| then []
    else [Line(c, key, mode, order[i], nonces(i))] + EntryLines(c, key, mode, order, nonces, i + 1)
  }

  lemma LineIsOne(c: Crypto, key: Bytes, mode: KeyMode, entry: (string, string), nonce: Nonce)
    requires Works(c) && GoodName(entry.0)
    ensures var line := Line(c, key, mode, entry, nonce); '\n' !in line && StripCr(line) == line
  {
    var code := c.encode(nonce + c.encrypt(key, nonce, entry.0, entry.1));
    var line := Line(c, key, mode, entry, nonce);
    var front := entry.0 + [':'] + "v1" + ['.'] + Tag(mode) + ['.'];
    assert line == front + code;
    assert line[|line| - 1] == if code == "" then '.' else code[|code| - 1];
  }

  lemma {:induction false} RenderedLines(c: Crypto, key: Bytes, mode: KeyMode, order: Listing, nonces: nat -> Nonce,
                                         i: nat)
    requires Works(c) && GoodListing(order) && i <= |order|
    ensures Lines(RenderedFrom(c, key, mode, order, nonces, i)) == EntryLines(c, key, mode, order, nonces, i)
    decreases |order| - i
  {
    if i < |order| {
      LineIsOne(c, key, mode, order[i], nonces(i));
      LinesNext(Line(c, key, mode, order[i], nonces(i)), RenderedFrom(c, key, mode, order, nonces, i + 1));
      RenderedLines(c, key, mode, order, nonces, i + 1);
    }
  }

  /** The header is a line of its own, whatever follows. */
  lemma HeaderLine(rest: string, body: string)
    requires body == SEAL_HEADER + "\n" + rest
    ensures Lines(body) == [SEAL_HEADER] + Lines(rest) && IsSealed(body) && Entries(body) == Lines(rest)
  {
    LinesNext(SEAL_HEADER, rest);
  }

  function MapOf(order: Listing, n: nat): Accounts
    requires n <= |order|
  {
    if n == 0 then map[] else MapOf(order, n - 1)[order[n - 1].0 := order[n - 1].1]
  }

  lemma LearnLine(c: Crypto, keyFor: KeyMode -> Bytes, mode: KeyMode, entry: (string, string), nonce: Nonce, m: Accounts)
    requires Works(c) && GoodName(entry.0)
    ensures Learn(c, Line(c, keyFor(mode), mode, entry, nonce), true, keyFor, m) == m[entry.0 := entry.1]
  {
    SplitJoined(entry.0, ':', Seal(c, keyFor(mode), mode, entry.0, entry.1, nonce));
    OpenSealed(c, keyFor, mode, entry.0, entry.1, nonce);
  }

  lemma {:induction false} LearnEntries(c: Crypto, keyFor: KeyMode -> Bytes, mode: KeyMode, order: Listing,
                                        nonces: nat -> Nonce, i: nat)
    requires Works(c) && GoodListing(order) && i <= |order|
    ensures LearnAll(c, EntryLines(c, keyFor(mode), mode, order, nonces, i), true, keyFor, MapOf(order, i))
            == MapOf(order, |order|)
    decreases |order| - i
  {
    if i < |order| {
      LearnLine(c, keyFor, mode, order[i], nonces(i), MapOf(order, i));
      LearnEntries(c, keyFor, mode, order, nonces, i + 1);
    }
  }

  lemma {:induction false} MapOfListed(order: Listing, m: Accounts, n: nat)
    requires Lists(order, m) && n <= |order|
    ensures forall user :: user in MapOf(order, n) <==> exists i :: 0 <= i < n && order[i].0 == user
    ensures forall user :: user in MapOf(order, n) ==> user in m && MapOf(order, n)[user] == m[user]
    decreases n
  {
    if n > 0 {
      MapOfListed(order, m, n - 1);
    }
  }

  lemma ListedIs(order: Listing, m: Accounts)
    requires Lists(order, m)
    ensures MapOf(order, |order|) == m
  {
    MapOfListed(order, m, |order|);
  }

  /** Any iteration order reads back as the map. */
  lemma SealedRoundTrip(c: Crypto, keyFor: KeyMode -> Bytes, mode: KeyMode, m: Accounts, order: Listing,
                        nonces: nat -> Nonce)
    requires Works(c) && Lists(order, m) && GoodNames(m)
    ensures Parsed(c, Rendered(c, keyFor(mode), mode, order, nonces), keyFor) == m
  {
    var rest := RenderedFrom(c, keyFor(mode), mode, order, nonces, 0);
    RenderedLines(c, keyFor(mode), mode, order, nonces, 0);
    HeaderLine(rest, Rendered(c, keyFor(mode), mode, order, nonces));
    LearnEntries(c, keyFor, mode, order, nonces, 0);
    ListedIs(order, m);
  }

  lemma {:induction false} LearnedNames(c: Crypto, lines: seq<string>, sealed: bool, keyFor: KeyMode -> Bytes, m: Accounts)
    requires GoodNames(m) && forall i :: 0 <= i < |lines| ==> '\n' !in lines[i]
    ensures GoodNames(LearnAll(c, lines, sealed, keyFor, m))
    decreases |lines|
  {
    if lines != [] {
      assert '\n' !in lines[0][..Find(lines[0], ':')];
      LearnedNames(c, lines[1..], sealed, keyFor, Learn(c, lines[0], sealed, keyFor, m));
    }
  }

  /** Whatever is read, sealed or legacy, has good names. */
  lemma ParsedNames(c: Crypto, body: string, keyFor: KeyMode -> Bytes)
    ensures GoodNames(Parsed(c, body, keyFor))
  {
    LinesHaveNoBreak(body);
    LearnedNames(c, Entries(body), IsSealed(body), keyFor, map[]);
  }

  /** The round trip holds exactly for names that are not empty and free of
      ':' and newline. */
  lemma RoundTripIff(c: Crypto, keyFor: KeyMode -> Bytes, mode: KeyMode, m: Accounts, order: Listing,
                     nonces: nat -> Nonce)
    requires Works(c) && Lists(order, m)
    ensures Parsed(c, Rendered(c, keyFor(mode), mode, order, nonces), keyFor) == m <==> GoodNames(m)
  {
    if GoodNames(m) {
      SealedRoundTrip(c, keyFor, mode, m, order, nonces);
    }
    ParsedNames(c, Rendered(c, keyFor(mode), mode, order, nonces), keyFor);
  }

  // ----- Names and legacy bodies -----

  function NamesIn(lines: seq<string>): seq<string> {
    if lines == [] then []
    else
      var parts := SplitOnce(lines[0], ':');
      (if parts.Some? && parts.value.0 != "" then [parts.value.0] else []) + NamesIn(lines[1..])
  }

  /** `parse_names`. */
  function ParseNames(body: string): seq<string> { NamesIn(Entries(body)) }

  function ListedNames(order: Listing, i: nat): seq<string>
    requires i <= |order|
    decreases |order| - i
  {
    if i == |order| then [] else [order[i].0] + ListedNames(order, i + 1)
  }

  lemma {:induction false} EntryNames(c: Crypto, key: Bytes, mode: KeyMode, order: Listing, nonces: nat -> Nonce, i: nat)
    requires GoodListing(order) && i <= |order|
    ensures NamesIn(EntryLines(c, key, mode, order, nonces, i)) == ListedNames(order, i)
    decreases |order| - i
  {
    if i < |order| {
      SplitJoined(order[i].0, ':', Seal(c, key, mode, order[i].0, order[i].1, nonces(i)));
      EntryNames(c, key, mode, order, nonces, i + 1);
    }
  }

  /** Unicode `White_Space`. */
  predicate IsSpace(c: char) {
    var n := c as int;
    || 9 <= n <= 13 || n == 0x20 || n == 0x85 || n == 0xA0 || n == 0x1680 || 0x2000 <= n <= 0x200A
    || n == 0x2028 || n == 0x2029 || n == 0x202F || n == 0x205F || n == 0x3000
  }

  /** `body_has_legacy`. */
  predicate HasLegacy(body: string) {
    (exists i :: 0 <= i < |body| && !IsSpace(body[i])) && !IsSealed(body)
  }

  /** The names of a rendered body, in its order; and it is not legacy. */
  lemma RenderedNames(c: Crypto, key: Bytes, mode: KeyMode, order: Listing, nonces: nat -> Nonce)
    requires Works(c) && GoodListing(order)
    ensures var body := Rendered(c, key, mode, order, nonces);
            ParseNames(body) == ListedNames(order, 0) && !HasLegacy(body)
  {
    RenderedLines(c, key, mode, order, nonces, 0);
    HeaderLine(RenderedFrom(c, key, mode, order, nonces, 0), Rendered(c, key, mode, order, nonces));
    EntryNames(c, key, mode, order, nonces, 0);
  }

  /** Rewriting any body, legacy or not, keeps what it parses to. */
  lemma MigrationKeeps(c: Crypto, keyFor: KeyMode -> Bytes, mode: KeyMode, body: string, order: Listing,
                       nonces: nat -> Nonce)
    requires Works(c) && Lists(order, Parsed(c, body, keyFor))
    ensures var next := Rendered(c, keyFor(mode), mode, order, nonces);
            Parsed(c, next, keyFor) == Parsed(c, body, keyFor) && !HasLegacy(next)
  {
    ParsedNames(c, body, keyFor);
    SealedRoundTrip(c, keyFor, mode, Parsed(c, body, keyFor), order, nonces);
    RenderedNames(c, keyFor(mode), mode, order, nonces);
  }

  // ----- The machine key -----

  function TrimStart(s: string): string { if s != "" && IsSpace(s[0]) then TrimStart(s[1..]) else s }

  function TrimEnd(s: string): string {
    if s != "" && IsSpace(s[|s| - 1]) then TrimEnd(s[..|s| - 1]) else s
  }

  function Trim(s: string): string { TrimEnd(TrimStart(s)) }

  function IkmForMode(productUuid: string, machineId: string, mode: KeyMode): string {
    if mode.Dmi? then Trim(productUuid) + Trim(machineId) else Trim(machineId)
  }

  function BuildIkm(productUuid: string, machineId: string): (string, KeyMode) {
    var pu, mid := Trim(productUuid), Trim(machineId);
    if pu == "" then (mid, MachineId) else (IkmForMode(pu, mid, Dmi), Dmi)
  }

  lemma {:induction false} TrimEndTidy(s: string)
    ensures TrimEnd(s) <= s && TrimEnd(TrimEnd(s)) == TrimEnd(s)
    decreases |s|
  {
    if s != "" && IsSpace(s[|s| - 1]) {
      TrimEndTidy(s[..|s| - 1]);
    }
  }

  lemma {:induction false} TrimStartTidy(s: string)
    ensures TrimStart(s) == "" || !IsSpace(TrimStart(s)[0])
  {
    if s != "" && IsSpace(s[0]) {
      TrimStartTidy(s[1..]);
    }
  }

  lemma TrimTwice(s: string)
    ensures Trim(Trim(s)) == Trim(s)
  {
    TrimStartTidy(s);
    TrimEndTidy(TrimStart(s));
    assert TrimStart(Trim(s)) == Trim(s);
  }

  lemma SameFront(a: string, b: string, tail: string)
    ensures a + tail == b + tail <==> a == b
  {
    assert (a + tail)[..|a|] == a && (b + tail)[..|b|] == b;
  }

  /** Reading with the mode a blob names rebuilds the input it was sealed under;
      if the board's uuid has changed since, exactly when it was not used. */
  lemma IkmAgrees(productUuid: string, machineId: string, later: string)
    ensures var (ikm, mode) := BuildIkm(productUuid, machineId);
            && IkmForMode(productUuid, machineId, mode) == ikm
            && (IkmForMode(later, machineId, mode) == ikm <==> mode.MachineId? || Trim(later) == Trim(productUuid))
  {
    TrimTwice(productUuid);
    TrimTwice(machineId);
    SameFront(Trim(later), Trim(productUuid), Trim(machineId));
  }
}
