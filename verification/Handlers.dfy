// The request handlers: ordered calls of database methods, proved to be the request
// steps of Lifecycle and SignUp. Request authentication is a boolean argument, and the
// address of a key an optional one.

module Handlers {
  import opened Basics
  import opened Schema
  import opened Store
  import opened Expansion
  import opened Transactions
  import opened Pgsql
  import opened Lifecycle
  import opened SignUp
  import opened Shuffle
  import opened Util

  function Digest(t: Tables, a: Uuid, keys: Uuid -> KeyPair): Bytes
    requires a in t.members
  {
    CensusEntry(t.members[a], keys(a)).digest
  }

  function Digests(entries: seq<Row>): seq<Bytes>
    requires forall i :: 0 <= i < |entries| ==> entries[i].CensusMemberRow?
  {
    seq(|entries|, i requires 0 <= i < |entries| => entries[i].entry.digest)
  }

  // The members of an entity give different digests.
  ghost predicate DigestsDiffer(t: Tables, ids: set<Uuid>, keys: Uuid -> KeyPair)
    requires ids <= t.members.Keys
  {
    forall a, b :: a in ids && b in ids && a != b ==> Digest(t, a, keys) != Digest(t, b, keys)
  }

  lemma {:induction false} FreshMeansDiffer(t: Tables, e: Bytes, c: Census, keys: Uuid -> KeyPair)
    requires LegalMembers(t)
    ensures FreshKeys(t, e, c, keys) <==> DigestsDiffer(t, EligibleIds(t, e, c), keys)
  {
    var ids := EligibleIds(t, e, c);
    ValidKeysDiffer(t, e);
    if FreshKeys(t, e, c, keys) {
      forall a, b | a in ids && b in ids && a != b ensures Digest(t, a, keys) != Digest(t, b, keys) {
        if HasValidKey(t.members[a]) && !HasValidKey(t.members[b]) {
          assert keys(b).public != t.members[a].key.value;
        }
      }
    }
    if DigestsDiffer(t, ids, keys) {
      forall a, b | a in ids && b in ids && a != b && !HasValidKey(t.members[a])
        ensures keys(a).public != (if HasValidKey(t.members[b]) then t.members[b].key.value else keys(b).public)
      {
        assert Digest(t, a, keys) != Digest(t, b, keys);
      }
    }
  }

  lemma {:induction false} ListedDigests(t: Tables, c: Bytes, ids: set<Uuid>, keys: Uuid -> KeyPair, entries: seq<Row>)
    requires ListsEntries(entries, t, c, ids, keys)
    ensures Distinct(Digests(entries)) <==> DigestsDiffer(t, ids, keys)
  {
    var d := Digests(entries);
    assert forall i :: 0 <= i < |d| ==> d[i] == Digest(t, entries[i].id, keys);
    if Distinct(d) {
      forall a, b | a in ids && b in ids && a != b ensures Digest(t, a, keys) != Digest(t, b, keys) {
        assert EntryOf(t, c, a, keys) in entries && EntryOf(t, c, b, keys) in entries;
        var i :| 0 <= i < |entries| && entries[i] == EntryOf(t, c, a, keys);
        var j :| 0 <= j < |entries| && entries[j] == EntryOf(t, c, b, keys);
        assert d[i] != d[j];
      }
    }
    if DigestsDiffer(t, ids, keys) {
      forall i, j | 0 <= i < j < |d| ensures d[i] != d[j] {
        assert entries[i] != entries[j];
        assert entries[i].id != entries[j].id;
      }
    }
  }

  // The claim of a member: its own key if that is valid, and in an ephemeral census otherwise the generated one.
  ghost predicate IsClaim(t: Tables, e: Bytes, c: Bytes, keys: Uuid -> KeyPair, a: Uuid, k: Bytes) {
    && Owned(t, e, a) && c in t.censuses
    && if HasValidKey(t.members[a]) then t.members[a].key == Some(k)
       else t.censuses[c].ephemeral && k == keys(a).public
  }

  lemma {:induction false} ListedClaims(t: Tables, e: Bytes, c: Bytes, keys: Uuid -> KeyPair, entries: seq<Row>)
    requires c in t.censuses && ListsEntries(entries, t, c, EligibleIds(t, e, t.censuses[c]), keys)
    ensures forall k :: k in Digests(entries) <==> exists a :: IsClaim(t, e, c, keys, a, k)
  {
    var d := Digests(entries);
    forall k ensures k in d <==> exists a :: IsClaim(t, e, c, keys, a, k) {
      if k in d {
        var i :| 0 <= i < |d| && d[i] == k;
        assert IsClaim(t, e, c, keys, entries[i].id, k);
      }
      if a :| IsClaim(t, e, c, keys, a, k) {
        assert EntryOf(t, c, a, keys) in entries;
        var i :| 0 <= i < |entries| && entries[i] == EntryOf(t, c, a, keys);
        assert d[i] == k;
      }
    }
  }

  // The ids drawn for new tokens are new, different and not nil.
  ghost predicate NewIds(t: Tables, ids: nat -> Uuid, amount: nat) {
    && (forall i :: 0 <= i < amount ==> ids(i) != NIL_UUID && ids(i) !in t.members)
    && (forall i, j :: 0 <= i < j < amount ==> ids(i) != ids(j))
  }

  lemma {:induction false} ListedIds(t: Tables, ids: nat -> Uuid, tokens: seq<Uuid>)
    requires forall i :: 0 <= i < |tokens| ==> tokens[i] == ids(i)
    ensures NewIds(t, ids, |tokens|) <==>
            NIL_UUID !in tokens && Distinct(tokens) && forall id :: id in tokens ==> id !in t.members
  {
    if NIL_UUID !in tokens && Distinct(tokens) && forall id :: id in tokens ==> id !in t.members {
      forall i | 0 <= i < |tokens| ensures ids(i) != NIL_UUID && ids(i) !in t.members {
        assert tokens[i] in tokens;
      }
      forall i, j | 0 <= i < j < |tokens| ensures ids(i) != ids(j) {
        assert tokens[i] != tokens[j];
      }
    }
  }

  // Every key decodes, to a non-empty one that no user has and that is not repeated, and the ids drawn are new.
  ghost predicate KeysImportable(t: Tables, keys: seq<string>, gen: nat -> Uuid) {
    && (forall i :: 0 <= i < |keys| ==>
          var key := Unhex(TrimHex(keys[i]));
          key.Some? && key.value != [] && key.value !in t.users && gen(i) !in t.members)
    && (forall i, j :: 0 <= i < j < |keys| ==>
          Unhex(TrimHex(keys[i])) != Unhex(TrimHex(keys[j])) && gen(i) != gen(j))
  }

  lemma {:induction false} DecodedFits(t: Tables, e: Bytes, keys: seq<string>, members: seq<NewMember>, gen: nat -> Uuid)
    requires |members| == |keys|
    requires forall i :: 0 <= i < |keys| ==>
               Unhex(TrimHex(keys[i])).Some? && members[i] == NewMember([], Unhex(TrimHex(keys[i])).value, BLANK)
    ensures KeysImportable(t, keys, gen) <==>
            ListFits(t, e, members, gen) && forall i :: 0 <= i < |members| ==> Importable(e, members[i])
  {
    if ListFits(t, e, members, gen) && forall i :: 0 <= i < |members| ==> Importable(e, members[i]) {
      forall i | 0 <= i < |keys|
        ensures Unhex(TrimHex(keys[i])).value != [] && Unhex(TrimHex(keys[i])).value !in t.users && gen(i) !in t.members
      {
        assert Importable(e, members[i]);
      }
      forall i, j | 0 <= i < j < |keys| ensures Unhex(TrimHex(keys[i])) != Unhex(TrimHex(keys[j])) && gen(i) != gen(j) {
        assert members[i].key != members[j].key;
      }
    }
    if KeysImportable(t, keys, gen) {
      forall i | 0 <= i < |members| ensures members[i].key !in t.users && gen(i) !in t.members && Importable(e, members[i]) {
        assert Unhex(TrimHex(keys[i])).value == members[i].key;
      }
      forall i, j | 0 <= i < j < |members| ensures members[i].key != members[j].key && gen(i) != gen(j) {
        assert Unhex(TrimHex(keys[i])) != Unhex(TrimHex(keys[j]));
      }
    }
  }

  class Manager {
    const db: Database

    constructor (db: Database)
      ensures this.db == db
    {
      this.db := db;
    }

    method SignUp(key: Bytes, address: Option<Bytes>, given: Option<EntityInfo>, id: Uuid) returns (ok: bool)
      requires db.Valid()
      modifies db
      ensures db.Valid()
      ensures ok <==> ValidPubKey(key) && address.Some? && address.value != []
      ensures db.tables == if ValidPubKey(key) && address.Some? then SignUpStep(old(db.tables), address.value, given, id)
                           else old(db.tables)
    {
      if !ValidPubKey(key) {
        return false;
      }
      if address.None? {
        return false;
      }
      var e := address.value;
      EnterEffect(db.tables, e, given);
      var added := db.AddEntity(e, SignUpInfo(e, given));
      // Only a taken primary key is tolerated, and it is the only way to fail.
      assert added || e in db.tables.entities;
      var stored := db.AddTarget(e, e, ALL, id);
      return stored || e != [];
    }

    // The claims are the digests of the expanded members, each exactly once, in shuffled order.
    method DumpCensus(key: Bytes, address: Option<Bytes>, censusID: string, keys: Uuid -> KeyPair, perm: nat -> seq<nat>)
      returns (ok: bool, claims: seq<Bytes>, ghost entries: seq<Row>)
      requires db.Valid()
      requires forall n :: IsPermutation(perm(n), n)
      modifies db
      ensures db.Valid()
      ensures ok <==> ValidPubKey(key) && address.Some? && DecodeCensusID(censusID, address).Some? &&
                      ExpandCensus(old(db.tables), address.value, DecodeCensusID(censusID, address).value, keys).Some?
      ensures !ok ==> db.tables == old(db.tables)
      ensures ok ==>
                var e, c := address.value, DecodeCensusID(censusID, address).value;
                && db.tables == ExpandCensus(old(db.tables), e, c, keys).value
                && ListsEntries(entries, old(db.tables), c, EligibleIds(old(db.tables), e, old(db.tables).censuses[c]), keys)
                && Scattered(claims, Digests(entries), perm(|entries|))
                && multiset(claims) == multiset(Digests(entries))
                && |claims| == db.tables.censuses[c].size
                && (forall k :: k in claims <==> exists a :: IsClaim(old(db.tables), e, c, keys, a, k))
                && (Distinct(claims) <==> FreshKeys(old(db.tables), e, old(db.tables).censuses[c], keys))
    {
      if !ValidPubKey(key) {
        return false, [], [];
      }
      if address.None? {
        return false, [], [];
      }
      var c := DecodeCensusID(censusID, address);
      if c.None? {
        return false, [], [];
      }
      var done, rows := db.ExpandCensusMembers(address.value, c.value, keys);
      if !done {
        return false, [], [];
      }
      entries := rows;
      ghost var t := old(db.tables);
      ListedDigests(t, c.value, EligibleIds(t, address.value, t.censuses[c.value]), keys, entries);
      FreshMeansDiffer(t, address.value, t.censuses[c.value], keys);
      var shuffled := Scatter(Digests(rows), perm(|rows|));
      ScatteredDistinct(shuffled[..], Digests(rows), perm(|rows|));
      ListedClaims(t, address.value, c.value, keys, rows);
      forall k ensures k in shuffled[..] <==> k in Digests(rows) {
        assert k in multiset(shuffled[..]) <==> k in multiset(Digests(rows));
      }
      return true, shuffled[..], entries;
    }
  }

  class Registry {
    const db: Database

    constructor (db: Database)
      ensures this.db == db
    {
      this.db := db;
    }

    // `wellFormed` is the outcome of the check of the email's format.
    method Register(e: Bytes, key: Option<Bytes>, info: Option<MemberInfo>, wellFormed: bool, id: Uuid, now: int) returns (ok: bool)
      requires db.Valid()
      modifies db
      ensures db.Valid()
      ensures ok <==> e in old(db.tables).entities && info.Some? && wellFormed &&
                      Store.AddMember(old(db.tables), e, key, info.value, id, now).Some?
      ensures db.tables == if ok then Store.AddMember(old(db.tables), e, key, info.value, id, now).value else old(db.tables)
    {
      if e !in db.tables.entities {
        return false;
      }
      if info.None? || !wellFormed {
        return false;
      }
      ok := db.AddMember(e, key, info.value, id, now);
    }

    method ValidateToken(e: Bytes, key: Bytes, token: Option<Uuid>, now: int) returns (reply: Reply)
      requires db.Valid()
      modifies db
      ensures db.Valid()
      ensures reply == ValidateReply(old(db.tables), e, key, token, now)
      ensures db.tables == Validate(old(db.tables), e, key, token, now)
    {
      if token.None? {
        return BadToken;
      }
      var id := token.value;
      if e !in db.tables.entities {
        return UnknownEntity;
      }
      if !Owned(db.tables, e, id) {
        return UnknownToken;
      }
      var member := db.tables.members[id];
      if KeyBytes(member) == key {
        return AlreadyRegistered;
      } else if |KeyBytes(member)| != 0 {
        return ReusedToken;
      }
      var ok := db.RegisterMember(e, key, id, now);
      if !ok {
        return Rejected;
      }
      RemovePending(e, id);
      return Accepted;
    }

    // Takes the pending tag off a member if the entity has such a tag.
    method RemovePending(e: Bytes, id: Uuid)
      requires db.Valid()
      modifies db
      ensures db.Valid() && db.tables == ClearPending(old(db.tables), e, id)
    {
      if |e| == 0 || !exists g :: g in db.tables.tags && db.tables.tags[g] == Tag(e, PENDING) {
        return;
      }
      var g :| g in db.tables.tags && db.tables.tags[g] == Tag(e, PENDING);
      ClearPendingIs(db.tables, e, id, g);
      var removed, count, invalid := db.RemoveTagFromMembers(e, [id], g);
    }

    method RegistrationStatus(e: Bytes, key: Bytes) returns (known: bool, registered: bool)
      ensures known == (e in db.tables.entities)
      ensures known ==> registered == KeyInUse(db.tables, e, key)
    {
      if e !in db.tables.entities {
        return false, false;
      }
      var rows := set a | a in db.tables.members && db.tables.members[a].entity == e && db.tables.members[a].key == Some(key);
      registered := rows != {};
      assert forall a :: a in rows <==> Owned(db.tables, e, a) && db.tables.members[a].key == Some(key);
      known := true;
    }
  }

  class TokenAPI {
    const db: Database

    constructor (db: Database)
      ensures this.db == db
    {
      this.db := db;
    }

    // None is an error answer.
    method Status(e: Bytes, token: Option<Uuid>, authentic: bool) returns (r: Option<Status>)
      ensures r.Some? <==> e != [] && token.Some? && e in db.tables.entities && authentic
      ensures r.Some? ==> r.value == TokenStatus(db.tables, e, token.value)
    {
      if |e| == 0 || token.None? || e !in db.tables.entities || !authentic {
        return None;
      }
      if !Owned(db.tables, e, token.value) {
        return Some(Invalid);
      }
      if |KeyBytes(db.tables.members[token.value])| != PUB_KEY_LENGTH {
        return Some(Available);
      }
      return Some(Registered);
    }

    method Revoke(e: Bytes, token: Option<Uuid>, authentic: bool) returns (ok: bool)
      requires db.Valid()
      modifies db
      ensures db.Valid()
      ensures ok <==> e != [] && token.Some? && e in old(db.tables).entities && authentic && Owned(old(db.tables), e, token.value)
      ensures ok ==> TokenStatus(db.tables, e, token.value).Invalid?
      ensures db.tables == if ok then WithoutMembers(old(db.tables), {token.value}) else old(db.tables)
    {
      if |e| == 0 || token.None? || e !in db.tables.entities || !authentic {
        return false;
      }
      ok := db.DeleteMember(e, token.value);
    }

    // The ids are drawn before the insertion.
    method Generate(e: Bytes, amount: int, authentic: bool, ids: nat -> Uuid, now: int) returns (ok: bool, tokens: seq<Uuid>)
      requires db.Valid()
      modifies db
      ensures db.Valid()
      ensures ok <==>
                && e != [] && e in old(db.tables).entities && authentic && amount >= 1 && (e, Token) in old(db.tables).origins
                && NewIds(old(db.tables), ids, amount)
      ensures !ok ==> db.tables == old(db.tables)
      ensures ok ==> |tokens| == amount && Distinct(tokens) && forall id :: id in tokens ==>
                TokenStatus(old(db.tables), e, id).Invalid? && TokenStatus(db.tables, e, id).Available?
    {
      tokens := [];
      if |e| == 0 || e !in db.tables.entities || !authentic || amount < 1 {
        return false, [];
      }
      for i := 0 to amount
        invariant |tokens| == i && forall k :: 0 <= k < i ==> tokens[k] == ids(k)
      {
        tokens := tokens + [ids(i)];
      }
      TokensNeedOrigin(db.tables, e, tokens, now);
      ListedIds(db.tables, ids, tokens);
      if CreateMembersWithTokens(db.tables, e, tokens, now).Some? {
        GeneratedTokensAvailable(db.tables, e, tokens, now);
      }
      ok := db.CreateMembersWithTokens(e, tokens, now);
    }

    // Each key may carry a 0x; one that does not decode stops the import before anything is stored.
    method ImportKeysBulk(e: Bytes, keys: seq<string>, authentic: bool, gen: nat -> Uuid, now: int)
      returns (ok: bool, ghost members: seq<NewMember>)
      requires db.Valid()
      modifies db
      ensures db.Valid()
      ensures ok <==>
                && e != [] && keys != [] && e in old(db.tables).entities && authentic
                && (e, Token) in old(db.tables).origins && KeysImportable(old(db.tables), keys, gen)
      ensures !ok ==> db.tables == old(db.tables)
      ensures ok ==> |members| == |keys| && forall i :: 0 <= i < |keys| ==> Unhex(TrimHex(keys[i])) == Some(members[i].key)
      ensures ok ==> Store.AddMemberBulk(old(db.tables), e, members, gen, now) == Some(db.tables)
    {
      if |e| == 0 || |keys| == 0 || e !in db.tables.entities || !authentic {
        return false, [];
      }
      var list: seq<NewMember> := [];
      for i := 0 to |keys|
        invariant |list| == i
        invariant forall k :: 0 <= k < i ==>
                    Unhex(TrimHex(keys[k])).Some? && list[k] == NewMember([], Unhex(TrimHex(keys[k])).value, BLANK)
      {
        var key := Unhex(TrimHex(keys[i]));
        if key.None? {
          return false, [];
        }
        list := list + [NewMember([], key.value, BLANK)];
      }
      members := list;
      BulkIff(db.tables, e, list, gen, now);
      DecodedFits(db.tables, e, keys, list, gen);
      ok := db.AddMemberBulk(e, list, gen, now);
    }

    // Keys are decoded as they come, without dropping a 0x; the unused ones are answered in hexadecimal.
    method DeleteKeys(e: Bytes, keys: seq<string>, authentic: bool)
      returns (ok: bool, count: int, invalid: seq<string>, ghost list: seq<Bytes>, ghost unused: seq<Bytes>)
      requires db.Valid()
      modifies db
      ensures db.Valid()
      ensures ok <==> e != [] && e in old(db.tables).entities && authentic && forall i :: 0 <= i < |keys| ==> Unhex(keys[i]).Some?
      ensures !ok ==> db.tables == old(db.tables)
      ensures ok ==> |list| == |keys| && forall i :: 0 <= i < |keys| ==> Unhex(keys[i]) == Some(list[i])
      ensures ok ==> Store.DeleteMembersByKeys(old(db.tables), e, list) == Some(db.tables)
      ensures ok ==> count == |MembersByKey(old(db.tables), e, list)| && |keys| == count + |invalid| + Duplicates(list)
      ensures ok ==> Distinct(unused) && Elements(unused) == Unused(old(db.tables), e, list)
      ensures ok ==> |invalid| == |unused| && forall i :: 0 <= i < |unused| ==> invalid[i] == Hex(unused[i])
    {
      list, unused := [], [];
      if |e| == 0 || e !in db.tables.entities || !authentic {
        return false, 0, [], list, unused;
      }
      var keyBytes: seq<Bytes> := [];
      for i := 0 to |keys|
        invariant |keyBytes| == i
        invariant forall k :: 0 <= k < i ==> Unhex(keys[k]) == Some(keyBytes[k])
      {
        var key := Unhex(keys[i]);
        if key.None? {
          return false, 0, [], list, unused;
        }
        keyBytes := keyBytes + [key.value];
      }
      list := keyBytes;
      var done, deleted, invalidKeysBytes := db.DeleteMembersByKeys(e, keyBytes);
      unused := invalidKeysBytes;
      invalid := [];
      for i := 0 to |invalidKeysBytes|
        invariant |invalid| == i
        invariant forall k :: 0 <= k < i ==> invalid[k] == Hex(invalidKeysBytes[k])
      {
        invalid := invalid + [Hex(invalidKeysBytes[i])];
      }
      return true, deleted, invalid, list, unused;
    }
  }
}
