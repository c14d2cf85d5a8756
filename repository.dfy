/** The in-memory address repository: the reference semantics of the record
    store, one record per IP, kept in a map from IP to record. */
module Repository {
  import opened Common
  import opened Backend
  import opened Models

  const ErrAlreadyExists: Error := Message("Address already exists")
  const ErrDoesNotExist: Error := Message("Address doesn't exist")

  /** The records stored under the IPs of `order`, in that order. */
  function Listed(db: map<string, Address>, order: seq<string>): seq<Address>
    requires forall i :: 0 <= i < |order| ==> order[i] in db
  {
    seq(|order|, i requires 0 <= i < |order| => db[order[i]])
  }

  /** Listing a store in any map order yields every stored record exactly
      once, so the list is as long as the store is large and no IP occurs
      twice in it. */
  lemma ListedIsExact(db: map<string, Address>, order: seq<string>)
    requires forall ip :: ip in db ==> db[ip].ip == ip
    requires IsEnumeration(order, db.Keys)
    ensures |Listed(db, order)| == |db|
    ensures forall a :: a in Listed(db, order) <==> a in db.Values
    ensures forall i, j :: 0 <= i < j < |order| ==> Listed(db, order)[i].ip != Listed(db, order)[j].ip
  {
    EnumerationSize(order, db.Keys);
    var listed := Listed(db, order);
    forall a ensures a in listed <==> a in db.Values {
      if a in db.Values {
        var ip :| ip in db && db[ip] == a;
        var i :| 0 <= i < |order| && order[i] == ip;
        assert listed[i] == a;
      }
    }
  }

  class MockRepository {
    var db: map<string, Address>

    /** Every record is stored under its own IP. */
    ghost predicate Valid()
      reads this
    {
      forall ip :: ip in db ==> db[ip].ip == ip
    }

    constructor ()
      ensures db == map[] && Valid()
    {
      db := map[];
    }

    /** `CreateAddress`: stores a record under an IP that has none; an IP
        that already has one is refused and nothing changes, so there is at
        most one record per IP. */
    method CreateAddress(address: Address) returns (err: Option<Error>)
      requires Valid()
      modifies this
      ensures Valid()
      ensures address.ip !in old(db) ==> err == None && db == old(db)[address.ip := address]
      ensures address.ip in old(db) ==> err == Some(ErrAlreadyExists) && db == old(db)
    {
      if address.ip !in db {
        db := db[address.ip := address];
        return None;
      }
      return Some(ErrAlreadyExists);
    }

    /** `DeleteAddress`: removes the record of a present IP and nothing else;
        an absent IP is an error and nothing changes. */
    method DeleteAddress(ip: string) returns (err: Option<Error>)
      requires Valid()
      modifies this
      ensures Valid()
      ensures ip !in old(db) ==> err == Some(ErrDoesNotExist) && db == old(db)
      ensures ip in old(db) ==> err == None && db == old(db) - {ip}
    {
      if ip !in db {
        return Some(ErrDoesNotExist);
      }
      db := db - {ip};
      return None;
    }

    /** `GetAddress`: the record stored under `ip`, whose IP is `ip`, or an
        error when there is none. The error is not `sql.ErrNoRows`. */
    method GetAddress(ip: string) returns (r: Result<Address, Error>)
      requires Valid()
      ensures ip in db ==> r == Ok(db[ip]) && r.value.ip == ip
      ensures ip !in db ==> r == Err(ErrDoesNotExist)
    {
      if ip !in db {
        return Err(ErrDoesNotExist);
      }
      return Ok(db[ip]);
    }

    /** `GetAddresses`, visiting the map in the order `order`: every stored
        record once (see `ListedIsExact`). */
    method GetAddresses(order: seq<string>) returns (addresses: seq<Address>)
      requires Valid() && IsEnumeration(order, db.Keys)
      ensures addresses == Listed(db, order)
    {
      addresses := [];
      var i := 0;
      while i < |order|
        invariant 0 <= i <= |order|
        invariant addresses == Listed(db, order[..i])
      {
        addresses := addresses + [db[order[i]]];
        i := i + 1;
        assert order[..i - 1] + [order[i - 1]] == order[..i];
      }
      assert order[..i] == order;
    }

    /** A record created under a fresh IP is found again under that IP. */
    method CreateThenGet(address: Address) returns (err: Option<Error>, r: Result<Address, Error>)
      requires Valid() && address.ip !in db
      modifies this
      ensures Valid() && db == old(db)[address.ip := address]
      ensures err == None && r == Ok(address)
    {
      err := CreateAddress(address);
      r := GetAddress(address.ip);
    }

    /** A deleted record is not found any more. */
    method DeleteThenGet(ip: string) returns (err: Option<Error>, r: Result<Address, Error>)
      requires Valid() && ip in db
      modifies this
      ensures Valid() && db == old(db) - {ip}
      ensures err == None && r == Err(ErrDoesNotExist)
    {
      err := DeleteAddress(ip);
      r := GetAddress(ip);
    }
  }

  /** Three records created under three different IPs in an empty repository
      are listed as three addresses, whatever the map order. */
  method ThreeCreatedThreeListed(order: seq<string>) returns (count: nat)
    requires IsEnumeration(order, {"127.0.0.1", "127.0.0.2", "127.0.0.3"})
    ensures count == 3
  {
    var repo := new MockRepository();
    var _ := repo.CreateAddress(Address("127.0.0.1", "Test", ActionBlock, "Test", false, false, ZeroMetadata));
    var _ := repo.CreateAddress(Address("127.0.0.2", "Test", ActionBlock, "Test", false, false, ZeroMetadata));
    var _ := repo.CreateAddress(Address("127.0.0.3", "Test", ActionBlock, "Test", false, false, ZeroMetadata));
    assert repo.db.Keys == {"127.0.0.1", "127.0.0.2", "127.0.0.3"};
    var addresses := repo.GetAddresses(order);
    ListedIsExact(repo.db, order);
    count := |addresses|;
  }
}
