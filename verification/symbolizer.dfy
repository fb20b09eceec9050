/**
  * build-support/asan_symbolize.py: the Breakpad symbol index and its address lookup.
  */
module Symbolizer {
  import opened Options

  /** A line of a symbol file, already split into fields. CFI and STACK records are Unwind. */
  datatype Record =
    | FileRecord(number: int, name: string)
    | PublicRecord(addr: int, name: string)
    | FuncRecord(addr: int, name: string)
    | LineRecord(addr: int, size: int, line: int, file: int)
    | Unwind

  /** The value of addresses: symbol address (none before the first FUNC), size, line and file number. */
  datatype LineInfo = LineInfo(func: Option<int>, size: int, line: int, file: int)

  /** What a lookup returns, or the Python exception it raises. */
  datatype Answer =
    | Found(symbol: string, filename: string, line: int)
    | NotFound
    | RaisesKeyError
    | RaisesIndexError

  datatype Index = Index(
    files: seq<string>, symbols: map<int, string>, list: seq<int>, addresses: map<int, LineInfo>, func: Option<int>)

  const EMPTY_INDEX := Index([], map[], [], map[], None)

  // ---------------------------------------------------------------- parsing

  function Add(x: Index, r: Record): Option<Index> {
    match r
    case FileRecord(number, name) =>
      if number != |x.files| then None else Some(x.(files := x.files + [name]))
    case PublicRecord(addr, name) => Some(x.(symbols := x.symbols[addr := name]))
    case FuncRecord(addr, name) =>
      Some(x.(func := Some(addr), symbols := if addr in x.symbols then x.symbols else x.symbols[addr := name]))
    case LineRecord(addr, size, line, file) =>
      Some(x.(list := x.list + [addr], addresses := x.addresses[addr := LineInfo(x.func, size, line, file)]))
    case Unwind => Some(x)
  }

  /** The index after the first k records, before the address list is sorted; None if an assertion failed. */
  function Parse(rs: seq<Record>, k: nat): Option<Index>
    requires k <= |rs|
  {
    if k == 0 then Some(EMPTY_INDEX)
    else match Parse(rs, k - 1)
         case None => None
         case Some(x) => Add(x, rs[k - 1])
  }

  ghost predicate Ascending(xs: seq<int>) { forall i, j :: 0 <= i < j < |xs| ==> xs[i] <= xs[j] }

  function InsertSorted(xs: seq<int>, x: int): (r: seq<int>)
    requires Ascending(xs)
    ensures Ascending(r) && forall y :: y in r <==> y == x || y in xs
  {
    if xs == [] || x <= xs[0] then [x] + xs
    else
      var rest := InsertSorted(xs[1..], x);
      assert forall y :: y in xs[1..] ==> xs[0] <= y by {
        forall y | y in xs[1..] ensures xs[0] <= y {
          var j :| 1 <= j < |xs| && xs[j] == y;
        }
      }
      assert forall i :: 0 <= i < |rest| ==> xs[0] <= rest[i] by {
        forall i | 0 <= i < |rest| ensures xs[0] <= rest[i] { assert rest[i] in rest; }
      }
      [xs[0]] + rest
  }

  /** list.sort(). */
  function Sorted(xs: seq<int>): (r: seq<int>)
    ensures Ascending(r) && forall y :: y in r <==> y in xs
  {
    if xs == [] then [] else InsertSorted(Sorted(xs[1..]), xs[0])
  }

  // ---------------------------------------------------------------- the object

  class BreakpadSymbolizer {
    var files: seq<string>
    var symbols: map<int, string>
    var addressList: seq<int>
    var addresses: map<int, LineInfo>

    constructor ()
      ensures files == [] && symbols == map[] && addressList == [] && addresses == map[]
    {
      files, symbols, addressList, addresses := [], map[], [], map[];
    }

    /** The address list is the sorted list of keys. */
    ghost predicate Valid()
      reads this
    {
      Ascending(addressList) && forall a :: a in addressList <==> a in addresses
    }

    method ParseLines(rs: seq<Record>) returns (ok: bool)
      requires files == [] && symbols == map[] && addressList == [] && addresses == map[]
      modifies this
      ensures match Parse(rs, |rs|)
              case None => !ok
              case Some(x) => ok && Valid() && files == x.files && symbols == x.symbols && addresses == x.addresses
    {
      var func: Option<int> := None;
      for i := 0 to |rs|
        invariant Parse(rs, i) == Some(Index(files, symbols, addressList, addresses, func))
        invariant forall a :: a in addressList <==> a in addresses
      {
        match rs[i]
        case FileRecord(number, name) =>
          if number != |files| {
            ParseFails(rs, i + 1, |rs|);
            return false;
          }
          files := files + [name];
        case PublicRecord(addr, name) =>
          symbols := symbols[addr := name];
        case FuncRecord(addr, name) =>
          func := Some(addr);
          if addr !in symbols { symbols := symbols[addr := name]; }
        case LineRecord(addr, size, line, file) =>
          addressList := addressList + [addr];
          addresses := addresses[addr := LineInfo(func, size, line, file)];
        case Unwind =>
      }
      addressList := Sorted(addressList);
      ok := true;
    }

    /** bisect.bisect_left on the sorted address list. */
    method BisectLeft(addr: int) returns (k: nat)
      requires Valid()
      ensures k <= |addressList|
      ensures forall i :: 0 <= i < k ==> addressList[i] < addr
      ensures forall i :: k <= i < |addressList| ==> addr <= addressList[i]
    {
      var lo, hi := 0, |addressList|;
      while lo < hi
        invariant 0 <= lo <= hi <= |addressList|
        invariant forall i :: 0 <= i < lo ==> addressList[i] < addr
        invariant forall i :: hi <= i < |addressList| ==> addr <= addressList[i]
      {
        var mid := (lo + hi) / 2;
        if addressList[mid] < addr { lo := mid + 1; } else { hi := mid; }
      }
      k := lo;
    }

    method FindKey(addr: int) returns (key: Option<int>)
      requires Valid()
      ensures IsNearest(addresses, addr, key)
    {
      if addr in addresses { return Some(addr); }
      var index := BisectLeft(addr);
      if index == 0 {
        assert forall a :: a in addresses ==> a in addressList;
        return None;
      }
      key := Some(addressList[index - 1]);
      assert addressList[index - 1] in addressList;
      forall a | a in addresses && a <= addr ensures a <= key.value {
        var i :| 0 <= i < |addressList| && addressList[i] == a;
      }
    }

    method GetSymFileLine(addr: int) returns (r: Answer)
      requires Valid()
      ensures exists key :: IsNearest(addresses, addr, key)
      ensures forall key :: IsNearest(addresses, addr, key) ==> r == Describe(files, symbols, addresses, addr, key)
    {
      var key := FindKey(addr);
      forall k | IsNearest(addresses, addr, k) ensures k == key { NearestIsUnique(addresses, addr, k, key); }
      if key.None? { return NotFound; }
      var info := addresses[key.value];
      if info.func.None? || info.func.value !in symbols { return RaisesKeyError; }
      var symbol := symbols[info.func.value];
      if !(-|files| <= info.file < |files|) { return RaisesIndexError; }
      var filename := if info.file < 0 then files[|files| + info.file] else files[info.file];
      if addr < key.value + info.size {
        return Found(symbol, filename, info.line);
      }
      return NotFound;
    }
  }

  lemma {:induction false} ParseFails(rs: seq<Record>, k: nat, m: nat)
    requires k <= m <= |rs| && Parse(rs, k).None?
    ensures Parse(rs, m) == Parse(rs, k)
  {
    if k < m { ParseFails(rs, k, m - 1); }
  }

  /** key is the greatest record address that is at most addr, if there is one. */
  ghost predicate IsNearest(addresses: map<int, LineInfo>, addr: int, key: Option<int>) {
    match key
    case None => forall a :: a in addresses ==> addr < a
    case Some(k) => k in addresses && k <= addr && forall a :: a in addresses && a <= addr ==> a <= k
  }

  lemma NearestIsUnique(addresses: map<int, LineInfo>, addr: int, k: Option<int>, k': Option<int>)
    requires IsNearest(addresses, addr, k) && IsNearest(addresses, addr, k')
    ensures k == k'
  {
  }

  /** What the lookup makes of the record it found; a bad record raises even if it does not cover addr. */
  function Describe(files: seq<string>, symbols: map<int, string>, addresses: map<int, LineInfo>, addr: int, key: Option<int>)
    : Answer
    requires key.Some? ==> key.value in addresses
  {
    if key.None? then NotFound
    else
      var info := addresses[key.value];
      if info.func.None? || info.func.value !in symbols then RaisesKeyError
      else if !(-|files| <= info.file < |files|) then RaisesIndexError
      else if addr >= key.value + info.size then NotFound
      else Found(symbols[info.func.value], files[if info.file < 0 then |files| + info.file else info.file], info.line)
  }
}
