/** The content-addressed artifact store: namespaces keyed by lower-case hex. */
module Store {
  import opened Encoding
  import opened OrderedMap

  /** A JSON document, as its canonical text. */
  type Document = string

  /** DID to base64url hash of that member's signed update. */
  type CasAnnouncement = map<string, string>

  /** An empty string stands for an absent field: the code only ever asks whether a field is falsy. */
  datatype SmtProof = SmtProof(id: string, nonce: string, updateId: string, path: seq<string>)

  datatype Kind = AnnouncementKind | ProofKind | UpdateKind | GenesisKind

  /** What a namespace may hold. Nothing forces the shape to fit the namespace: the store is untrusted. */
  datatype Artifact = Update(update: Document) | Announcement(map_: CasAnnouncement)
                    | Proof(proof: SmtProof) | Genesis(genesis: Document) | Malformed

  datatype Slot = Slot(kind: Kind, key: string)

  // ---- Keys -------------------------------------------------------------------------------------

  predicate IsLowerHex(c: char) {
    '0' <= c <= '9' || 'a' <= c <= 'f'
  }

  function LowerHex(c: char): char {
    if 'A' <= c <= 'F' then (c as int - 'A' as int + 'a' as int) as char else c
  }

  /** Lower-cases a key; `None` is the throw on anything but non-empty hex. */
  function NormalizeHexKey(key: string): Option<string> {
    var lower := seq(|key|, i requires 0 <= i < |key| => LowerHex(key[i]));
    if key != "" && forall i :: 0 <= i < |lower| ==> IsLowerHex(lower[i]) then Some(lower) else None
  }

  /** The nibble a hex digit of either case spells, by its character code. */
  predicate Spells(c: char, n: Nibble) {
    if n < 10 then c as int == 48 + n else c as int == 87 + n || c as int == 55 + n
  }

  ghost predicate SpellsAll(key: string, nibbles: seq<Nibble>) {
    |key| == |nibbles| && forall i :: 0 <= i < |key| ==> Spells(key[i], nibbles[i])
  }

  lemma LowerHexSpells(c: char, n: Nibble)
    requires Spells(c, n)
    ensures IsLowerHex(LowerHex(c)) && LowerHex(c) == HexDigit(n)
  {
  }

  /** A key is whatever spells nibbles in either case, and its normal form is their digits. */
  lemma KeysAreTheirNibbles(key: string, nibbles: seq<Nibble>)
    requires SpellsAll(key, nibbles)
    ensures NormalizeHexKey(key) ==
            if key == "" then None
            else Some(seq(|nibbles|, i requires 0 <= i < |nibbles| => HexDigit(nibbles[i])))
  {
    forall i | 0 <= i < |key| ensures IsLowerHex(LowerHex(key[i])) && LowerHex(key[i]) == HexDigit(nibbles[i]) {
      LowerHexSpells(key[i], nibbles[i]);
    }
    var lower := seq(|key|, i requires 0 <= i < |key| => LowerHex(key[i]));
    assert lower == seq(|nibbles|, i requires 0 <= i < |nibbles| => HexDigit(nibbles[i]));
    assert forall i :: 0 <= i < |lower| ==> IsLowerHex(lower[i]);
  }

  function NibbleOf(c: char): Option<Nibble> {
    if '0' <= c <= '9' then Some(c as int - 48)
    else if 'a' <= c <= 'f' then Some(c as int - 87)
    else if 'A' <= c <= 'F' then Some(c as int - 55)
    else None
  }

  lemma OnlyKeysNormalize(key: string)
    requires NormalizeHexKey(key).Some?
    ensures key != "" && exists nibbles :: SpellsAll(key, nibbles)
  {
    var lower := seq(|key|, i requires 0 <= i < |key| => LowerHex(key[i]));
    forall i | 0 <= i < |key| ensures NibbleOf(key[i]).Some? && Spells(key[i], NibbleOf(key[i]).value) {
      assert IsLowerHex(lower[i]);
    }
    var nibbles := seq(|key|, i requires 0 <= i < |key| && NibbleOf(key[i]).Some? => NibbleOf(key[i]).value);
    assert SpellsAll(key, nibbles);
  }

  /** The store's keys: the texts that spell at least one nibble, and two name the same slot if they spell the same. */
  lemma KeyExactly(a: string, b: string)
    ensures NormalizeHexKey(a).Some? <==> a != "" && exists nibbles :: SpellsAll(a, nibbles)
    ensures NormalizeHexKey(a).Some? && NormalizeHexKey(a) == NormalizeHexKey(b) <==>
            a != "" && exists nibbles :: SpellsAll(a, nibbles) && SpellsAll(b, nibbles)
  {
    forall nibbles | SpellsAll(a, nibbles) { KeysAreTheirNibbles(a, nibbles); }
    forall nibbles | SpellsAll(b, nibbles) { KeysAreTheirNibbles(b, nibbles); }
    if NormalizeHexKey(a).Some? {
      OnlyKeysNormalize(a);
      if NormalizeHexKey(b) == NormalizeHexKey(a) {
        OnlyKeysNormalize(b);
        var x :| SpellsAll(a, x);
        var y :| SpellsAll(b, y);
        SameDigitsSameNibbles(x, y);
      }
    }
  }

  lemma SameDigitsSameNibbles(x: seq<Nibble>, y: seq<Nibble>)
    requires seq(|x|, i requires 0 <= i < |x| => HexDigit(x[i])) == seq(|y|, i requires 0 <= i < |y| => HexDigit(y[i]))
    ensures x == y
  {
    var dx := seq(|x|, i requires 0 <= i < |x| => HexDigit(x[i]));
    var dy := seq(|y|, i requires 0 <= i < |y| => HexDigit(y[i]));
    assert |x| == |dx| == |dy| == |y|;
    forall i | 0 <= i < |x| ensures x[i] == y[i] {
      assert dx[i] == dy[i];
      if x[i] < y[i] { HexDigitsInOrder(x[i], y[i]); }
      if y[i] < x[i] { HexDigitsInOrder(y[i], x[i]); }
    }
  }

  lemma {:induction false} HexDigitsOnly(b: Bytes)
    ensures |ToHex(b)| == 2 * |b|
    ensures forall i :: 0 <= i < |ToHex(b)| ==> IsLowerHex(ToHex(b)[i])
  {
    if b != [] {
      HexDigitsOnly(b[1..]);
    }
  }

  /** Every hex text of actual bytes is already a store key in normal form. */
  lemma HexIsAKey(b: Bytes)
    requires b != []
    ensures NormalizeHexKey(ToHex(b)) == Some(ToHex(b))
  {
    HexDigitsOnly(b);
    var s := ToHex(b);
    assert seq(|s|, i requires 0 <= i < |s| => LowerHex(s[i])) == s;
  }

  // ---- The store --------------------------------------------------------------------------------

  class ArtifactStore {
    var contents: map<Slot, Artifact>

    constructor ()
      ensures contents == map[]
    {
      contents := map[];
    }

    method Put(kind: Kind, hashHex: string, value: Artifact) returns (ok: bool)
      modifies this
      ensures ok <==> NormalizeHexKey(hashHex).Some?
      ensures contents == if ok
                          then old(contents)[Slot(kind, NormalizeHexKey(hashHex).value) := value]
                          else old(contents)
    {
      match NormalizeHexKey(hashHex)
      case Some(key) =>
        contents := contents[Slot(kind, key) := value];
        ok := true;
      case None =>
        ok := false;
    }

    /** The outer `None` is the throw on a malformed key, the inner one an absent artifact. */
    function Get(kind: Kind, hashHex: string): (r: Option<Option<Artifact>>)
      reads this
      ensures r == None <==> NormalizeHexKey(hashHex).None?
    {
      match NormalizeHexKey(hashHex)
      case Some(key) => Some(Lookup(contents, Slot(kind, key)))
      case None => None
    }

    /** Every value of one namespace, in no promised order. */
    method Entries(kind: Kind) returns (values: seq<Artifact>)
      ensures forall v :: v in values <==> exists key :: Lookup(contents, Slot(kind, key)) == Some(v)
    {
      values := [];
      var rest := contents.Keys;
      while rest != {}
        invariant rest <= contents.Keys
        invariant forall v :: v in values <==>
                    exists s :: s in contents.Keys - rest && s.kind == kind && contents[s] == v
      {
        var s :| s in rest;
        if s.kind == kind {
          values := values + [contents[s]];
        }
        rest := rest - {s};
      }
      forall v ensures v in values <==> exists key :: Lookup(contents, Slot(kind, key)) == Some(v) {
        if v in values {
          var s :| s in contents.Keys && s.kind == kind && contents[s] == v;
          assert Lookup(contents, Slot(kind, s.key)) == Some(v);
        }
      }
    }
  }

  function Lookup(contents: map<Slot, Artifact>, s: Slot): Option<Artifact> {
    if s in contents then Some(contents[s]) else None
  }

  // ---- Histories of writes ----------------------------------------------------------------------

  datatype Write = Write(slot: Slot, value: Artifact)

  function Applied(contents: map<Slot, Artifact>, ws: seq<Write>): map<Slot, Artifact> {
    if ws == [] then contents
    else
      var w := ws[|ws| - 1];
      Applied(contents, ws[..|ws| - 1])[w.slot := w.value]
  }

  lemma AppliedStep(contents: map<Slot, Artifact>, ws: seq<Write>, w: Write)
    ensures Applied(contents, ws + [w]) == Applied(contents, ws)[w.slot := w.value]
  {
    assert (ws + [w])[..|ws|] == ws;
  }

  lemma {:induction false} AppliedAppend(contents: map<Slot, Artifact>, a: seq<Write>, b: seq<Write>)
    ensures Applied(contents, a + b) == Applied(Applied(contents, a), b)
  {
    if b == [] {
      assert a + b == a;
    } else {
      AppliedAppend(contents, a, b[..|b| - 1]);
      assert (a + b)[..|a + b| - 1] == a + b[..|b| - 1];
    }
  }

  /** The last value written to a slot, if any. */
  function LastWrite(ws: seq<Write>, s: Slot): Option<Artifact> {
    if ws == [] then None
    else if ws[|ws| - 1].slot == s then Some(ws[|ws| - 1].value)
    else LastWrite(ws[..|ws| - 1], s)
  }

  /** A slot holds its last write, or what it held before. */
  lemma {:induction false} AppliedIsLastWrite(contents: map<Slot, Artifact>, ws: seq<Write>, s: Slot)
    ensures Lookup(Applied(contents, ws), s) ==
            if LastWrite(ws, s).Some? then LastWrite(ws, s) else Lookup(contents, s)
  {
    if ws != [] {
      AppliedIsLastWrite(contents, ws[..|ws| - 1], s);
    }
  }

  lemma {:induction false} LastWriteAppend(a: seq<Write>, b: seq<Write>, s: Slot)
    ensures LastWrite(a + b, s) == if LastWrite(b, s).Some? then LastWrite(b, s) else LastWrite(a, s)
  {
    if b == [] {
      assert a + b == a;
    } else {
      LastWriteAppend(a, b[..|b| - 1], s);
      assert (a + b)[..|a + b| - 1] == a + b[..|b| - 1];
    }
  }

  lemma {:induction false} LastWriteIsAWrite(ws: seq<Write>, s: Slot)
    ensures LastWrite(ws, s).Some? <==> exists i :: 0 <= i < |ws| && ws[i].slot == s
    ensures LastWrite(ws, s).Some? ==> Write(s, LastWrite(ws, s).value) in ws
  {
    if ws != [] {
      LastWriteIsAWrite(ws[..|ws| - 1], s);
      assert ws == ws[..|ws| - 1] + [ws[|ws| - 1]];
    }
  }

  /** Replaying a batch of writes changes nothing. */
  lemma ReplayChangesNothing(contents: map<Slot, Artifact>, ws: seq<Write>)
    ensures Applied(Applied(contents, ws), ws) == Applied(contents, ws)
  {
    var once := Applied(contents, ws);
    var twice := Applied(once, ws);
    forall s ensures Lookup(twice, s) == Lookup(once, s) {
      AppliedIsLastWrite(once, ws, s);
      AppliedIsLastWrite(contents, ws, s);
    }
    forall s ensures s in twice <==> s in once {
      assert Lookup(twice, s) == Lookup(once, s);
    }
    forall s | s in once ensures twice[s] == once[s] {
      assert Lookup(twice, s) == Lookup(once, s);
    }
  }
}
