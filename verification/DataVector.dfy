/** The byte buffer of a response: include/utils/data_vector.hpp. */
module DataVectors {
  import opened Options

  /** Memory of `|cells|` bytes, of which the first `size` are in use. Memory that the vector did not allocate
      itself has a fixed size. */
  datatype Buffer = Buffer(dataOwned: bool, cells: string, size: nat) {
    predicate Valid() { size <= |cells| }

    predicate Owned() { dataOwned || |cells| == 0 }

    function Data(): string
      requires Valid()
    {
      cells[..size]
    }
  }

  function Zeros(n: nat): string {
    seq(n, _ => '\0')
  }

  /** `reserve`; None is the exception for memory that is not owned. */
  function Reserved(b: Buffer, cap: nat): (r: Option<Buffer>)
    requires b.Valid()
    ensures r.Some? ==> r.value.Valid() && |r.value.cells| >= cap && r.value.Data() == b.Data()
    ensures r.None? <==> !b.Owned() && cap > |b.cells|
  {
    if cap <= |b.cells| then Some(b)
    else if !b.Owned() then None
    else
      var r := Buffer(true, b.Data() + Zeros(cap - b.size), b.size);
      assert r.Data() == b.Data();
      Some(r)
  }

  function Resized(b: Buffer, n: nat): (r: Option<Buffer>)
    requires b.Valid()
    ensures r.None? <==> !b.Owned() && n > |b.cells|
    ensures r.Some? ==> r.value.Valid() && r.value.size == n
    ensures r.Some? ==> forall i :: 0 <= i < n && i < b.size ==> r.value.cells[i] == b.cells[i]
  {
    var r := Reserved(b, n);
    if r.None? then None
    else
      assert forall i :: 0 <= i < b.size ==> r.value.cells[i] == r.value.Data()[i] == b.Data()[i];
      Some(r.value.(size := n))
  }

  /** Bytes stored from index `start` on. */
  function Written(cells: string, start: nat, bytes: string): (r: string)
    requires start + |bytes| <= |cells|
    ensures |r| == |cells|
    ensures forall i :: 0 <= i < |r| ==> r[i] == if start <= i < start + |bytes| then bytes[i - start] else cells[i]
  {
    cells[..start] + bytes + cells[start + |bytes|..]
  }

  class DataVector {
    var size: nat
    var dataOwned: bool
    var data: array<char>

    ghost predicate Valid()
      reads this
    {
      size <= data.Length
    }

    ghost function Value(): Buffer
      reads this, data
    {
      Buffer(dataOwned, data[..], size)
    }

    /** A vector over memory of the caller; without memory it is an empty vector that may grow. */
    constructor Borrow(memory: array<char>)
      ensures Valid() && data == memory && Value() == Buffer(false, memory[..], 0)
    {
      size, dataOwned, data := 0, false, memory;
    }

    constructor WithSize(n: nat)
      ensures Valid() && fresh(data) && size == n && Value().Owned()
    {
      size, dataOwned, data := n, n > 0, new char[n](_ => '\0');
    }

    predicate Owned()
      reads this, data
    {
      dataOwned || data.Length == 0
    }

    method Clear()
      requires Valid()
      modifies this`size
      ensures Valid() && Value() == old(Value()).(size := 0)
    {
      size := 0;
    }

    /** New memory when there is not enough; false is the exception, which changes nothing. */
    method Reserve(cap: nat) returns (ok: bool)
      requires Valid()
      modifies this`data, this`dataOwned
      ensures Valid() && ok == Reserved(old(Value()), cap).Some?
      ensures Value() == if ok then Reserved(old(Value()), cap).value else old(Value())
      ensures data == old(data) || fresh(data)
      ensures old(data[..]) == old(data)[..]
    {
      if cap > data.Length {
        if !dataOwned && data.Length != 0 {
          return false;
        }
        var fill := data[..size];
        var swap := new char[cap](i => if 0 <= i < |fill| then fill[i] else '\0');
        assert swap[..] == fill + Zeros(cap - |fill|);
        data := swap;
        dataOwned := true;
      }
      return true;
    }

    method Resize(n: nat) returns (ok: bool)
      requires Valid()
      modifies this`data, this`dataOwned, this`size
      ensures Valid() && ok == Resized(old(Value()), n).Some?
      ensures Value() == if ok then Resized(old(Value()), n).value else old(Value())
      ensures data == old(data) || fresh(data)
    {
      if n > data.Length {
        ok := Reserve(n);
        if !ok {
          return;
        }
      }
      size := n;
      return true;
    }

    /** Appends, or throws when the memory is full and not owned. */
    method PushBack(x: char) returns (ok: bool)
      requires Valid()
      modifies this`data, this`dataOwned, this`size, data
      ensures Valid() && (ok <==> old(Owned()) || old(size) < old(data.Length))
      ensures Value().Data() == if ok then old(Value().Data()) + [x] else old(Value().Data())
      ensures data == old(data) || fresh(data)
    {
      if size >= data.Length {
        ok := Reserve(if data.Length == 0 then 1 else data.Length * 2);
        if !ok {
          return;
        }
      }
      ghost var kept := data[..size];
      data[size] := x;
      size := size + 1;
      assert data[..size] == kept + [x];
      return true;
    }

    /** What the kernel does with received bytes. */
    method Store(start: nat, bytes: string)
      requires Valid() && start + |bytes| <= data.Length
      modifies data
      ensures Valid() && Value() == old(Value()).(cells := Written(old(data[..]), start, bytes))
    {
      for i := 0 to |bytes|
        invariant forall k :: 0 <= k < data.Length ==>
          data[k] == if start <= k < start + i then bytes[k - start] else old(data[k])
      {
        data[start + i] := bytes[i];
      }
      assert data[..] == Written(old(data[..]), start, bytes);
    }
  }
}
