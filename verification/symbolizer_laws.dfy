/**
  * The address lookup against a linear scan of the records.
  */
module SymbolizerLaws {
  import opened Options
  import opened Symbolizer

  // ---------------------------------------------------------------- the index

  ghost predicate Covers(addresses: map<int, LineInfo>, k: int, addr: int) {
    k in addresses && k <= addr < k + addresses[k].size
  }

  /** What the lookup finds: the nearest record, if it covers the address. */
  ghost function Hit(addresses: map<int, LineInfo>, addr: int, key: Option<int>): Option<int> {
    if key.Some? && Covers(addresses, key.value, addr) then key else None
  }

  /** A scan of all records finds r and nothing else. */
  ghost predicate OnlyCover(addresses: map<int, LineInfo>, addr: int, r: Option<int>) {
    match r
    case None => forall k :: !Covers(addresses, k, addr)
    case Some(k) => Covers(addresses, k, addr) && forall k' :: Covers(addresses, k', addr) ==> k' == k
  }

  ghost predicate NoOverlap(addresses: map<int, LineInfo>) {
    forall k, k' :: k in addresses && k' in addresses && k < k' ==> k + addresses[k].size <= k'
  }

  ghost predicate LookupScans(addresses: map<int, LineInfo>) {
    forall addr, key :: IsNearest(addresses, addr, key) ==> OnlyCover(addresses, addr, Hit(addresses, addr, key))
  }

  /**
    * At every address the lookup gives the one record that covers it, and none when none does, if and only if
    * no record reaches the start of the next.
    */
  lemma LookupScansIff(addresses: map<int, LineInfo>)
    ensures LookupScans(addresses) <==> NoOverlap(addresses)
  {
    if LookupScans(addresses) {
      forall k, k' | k in addresses && k' in addresses && k < k' ensures k + addresses[k].size <= k' {
        assert IsNearest(addresses, k', Some(k'));
        assert OnlyCover(addresses, k', Hit(addresses, k', Some(k')));
        assert !Covers(addresses, k, k');
      }
    }
  }

  // ---------------------------------------------------------------- the records

  /** The function that record i belongs to: the last FUNC before it. */
  function FunctionAt(rs: seq<Record>, i: nat): Option<int>
    requires i <= |rs|
  {
    if i == 0 then None
    else if rs[i - 1].FuncRecord? then Some(rs[i - 1].addr)
    else FunctionAt(rs, i - 1)
  }

  predicate LineCovers(r: Record, addr: int) { r.LineRecord? && r.addr <= addr < r.addr + r.size }

  /** Line records are not empty and do not overlap. */
  ghost predicate WellLaidOut(rs: seq<Record>) {
    && (forall i :: 0 <= i < |rs| && rs[i].LineRecord? ==> rs[i].size > 0)
    && (forall i, j :: 0 <= i < |rs| && 0 <= j < |rs| && i != j && rs[i].LineRecord? && rs[j].LineRecord? ==>
                         rs[i].addr + rs[i].size <= rs[j].addr || rs[j].addr + rs[j].size <= rs[i].addr)
  }

  /** How many FILE records there are among the first k. */
  function FilesBefore(rs: seq<Record>, k: nat): nat
    requires k <= |rs|
  {
    if k == 0 then 0 else FilesBefore(rs, k - 1) + if rs[k - 1].FileRecord? then 1 else 0
  }

  /** A file parses exactly when its FILE records are numbered 0, 1, 2 and so on; no other record can fail. */
  lemma {:induction false} ParsesExactly(rs: seq<Record>, k: nat)
    requires k <= |rs|
    ensures Parse(rs, k).Some? <==> forall i :: 0 <= i < k && rs[i].FileRecord? ==> rs[i].number == FilesBefore(rs, i)
    ensures Parse(rs, k).Some? ==> |Parse(rs, k).value.files| == FilesBefore(rs, k)
  {
    if k > 0 { ParsesExactly(rs, k - 1); }
  }

  /** The last line record for address a among the first k records. */
  function LastLine(rs: seq<Record>, k: nat, a: int): (r: Option<nat>)
    requires k <= |rs|
    ensures match r
            case None => forall i :: 0 <= i < k && rs[i].LineRecord? ==> rs[i].addr != a
            case Some(n) => n < k && rs[n].LineRecord? && rs[n].addr == a
                            && forall i :: n < i < k && rs[i].LineRecord? ==> rs[i].addr != a
  {
    if k == 0 then None
    else if rs[k - 1].LineRecord? && rs[k - 1].addr == a then Some(k - 1)
    else LastLine(rs, k - 1, a)
  }

  function InfoOf(rs: seq<Record>, i: nat): LineInfo
    requires i < |rs| && rs[i].LineRecord?
  {
    LineInfo(FunctionAt(rs, i), rs[i].size, rs[i].line, rs[i].file)
  }

  /** The map holds for each address its last line record and the function that record belongs to, and nothing else. */
  lemma {:induction false} ParseReflects(rs: seq<Record>, k: nat, a: int)
    requires k <= |rs| && Parse(rs, k).Some?
    ensures var x := Parse(rs, k).value;
            && x.func == FunctionAt(rs, k)
            && match LastLine(rs, k, a)
               case None => a !in x.addresses
               case Some(i) => a in x.addresses && x.addresses[a] == InfoOf(rs, i)
  {
    if k > 0 { ParseReflects(rs, k - 1, a); }
  }

  /** A function that some record belongs to has a name. */
  lemma {:induction false} FunctionsNamed(rs: seq<Record>, i: nat, k: nat)
    requires i <= k <= |rs| && Parse(rs, k).Some? && FunctionAt(rs, i).Some?
    ensures FunctionAt(rs, i).value in Parse(rs, k).value.symbols
    decreases k
  {
    if i < k { FunctionsNamed(rs, i, k - 1); } else if !rs[i - 1].FuncRecord? { FunctionsNamed(rs, i - 1, k - 1); }
  }

  lemma ReflectedDisjoint(rs: seq<Record>)
    requires WellLaidOut(rs) && Parse(rs, |rs|).Some?
    ensures NoOverlap(Parse(rs, |rs|).value.addresses)
  {
    var addresses := Parse(rs, |rs|).value.addresses;
    forall k, k' | k in addresses && k' in addresses && k < k' ensures k + addresses[k].size <= k' {
      ParseReflects(rs, |rs|, k);
      ParseReflects(rs, |rs|, k');
    }
  }

  // ---------------------------------------------------------------- names

  function LastPublic(rs: seq<Record>, k: nat, a: int): Option<string>
    requires k <= |rs|
  {
    if k == 0 then None
    else if rs[k - 1].PublicRecord? && rs[k - 1].addr == a then Some(rs[k - 1].name)
    else LastPublic(rs, k - 1, a)
  }

  function FirstFunc(rs: seq<Record>, k: nat, a: int): Option<string>
    requires k <= |rs|
  {
    if k == 0 then None
    else if FirstFunc(rs, k - 1, a).Some? then FirstFunc(rs, k - 1, a)
    else if rs[k - 1].FuncRecord? && rs[k - 1].addr == a then Some(rs[k - 1].name)
    else None
  }

  /** A symbol has the name of its last PUBLIC record, or else of its first FUNC record; files are numbered in order. */
  lemma {:induction false} NamesExactly(rs: seq<Record>, k: nat, a: int)
    requires k <= |rs| && Parse(rs, k).Some?
    ensures var x := Parse(rs, k).value;
            var name := if LastPublic(rs, k, a).Some? then LastPublic(rs, k, a) else FirstFunc(rs, k, a);
            && (name == if a in x.symbols then Some(x.symbols[a]) else None)
            && forall i :: 0 <= i < k && rs[i].FileRecord? ==> 0 <= rs[i].number < |x.files| && x.files[rs[i].number] == rs[i].name
  {
    if k > 0 { NamesExactly(rs, k - 1, a); }
  }

  /** Record i is the last of the line records with the greatest address at or below addr. */
  ghost predicate NearestLine(rs: seq<Record>, addr: int, i: nat) {
    && i < |rs| && rs[i].LineRecord? && rs[i].addr <= addr
    && forall j :: 0 <= j < |rs| && rs[j].LineRecord? && rs[j].addr <= addr ==>
                     rs[j].addr < rs[i].addr || (rs[j].addr == rs[i].addr && j <= i)
  }

  /** What line record i says of addr: a record without function or file raises even if it does not cover addr. */
  function Reported(rs: seq<Record>, x: Index, i: nat, addr: int): Answer
    requires i < |rs| && rs[i].LineRecord?
  {
    var func, file, n := FunctionAt(rs, i), rs[i].file, |x.files|;
    if func.None? || func.value !in x.symbols then RaisesKeyError
    else if !(-n <= file < n) then RaisesIndexError
    else if !LineCovers(rs[i], addr) then NotFound
    else Found(x.symbols[func.value], x.files[if file < 0 then n + file else file], rs[i].line)
  }

  lemma NearestIsLast(rs: seq<Record>, addr: int, i: nat)
    requires NearestLine(rs, addr, i)
    ensures LastLine(rs, |rs|, rs[i].addr) == Some(i)
  {
    var last := LastLine(rs, |rs|, rs[i].addr);
    assert last.Some? && i <= last.value;
  }

  lemma NearestKey(rs: seq<Record>, addr: int, key: Option<int>, i: nat)
    requires Parse(rs, |rs|).Some? && IsNearest(Parse(rs, |rs|).value.addresses, addr, key) && NearestLine(rs, addr, i)
    ensures var x := Parse(rs, |rs|).value;
            && key == Some(rs[i].addr)
            && rs[i].addr in x.addresses && x.addresses[rs[i].addr] == InfoOf(rs, i)
  {
    NearestIsLast(rs, addr, i);
    ParseReflects(rs, |rs|, rs[i].addr);
    assert key.Some?;
    ParseReflects(rs, |rs|, key.value);
    var j := LastLine(rs, |rs|, key.value).value;
    assert rs[j].addr <= rs[i].addr;
  }

  lemma NearestReported(rs: seq<Record>, addr: int, key: Option<int>, i: nat)
    requires Parse(rs, |rs|).Some? && IsNearest(Parse(rs, |rs|).value.addresses, addr, key) && NearestLine(rs, addr, i)
    ensures var x := Parse(rs, |rs|).value;
            Describe(x.files, x.symbols, x.addresses, addr, key) == Reported(rs, x, i, addr)
  {
    NearestKey(rs, addr, key, i);
  }

  lemma NearestExists(rs: seq<Record>, addr: int, key: Option<int>)
    requires Parse(rs, |rs|).Some? && IsNearest(Parse(rs, |rs|).value.addresses, addr, key) && key.Some?
    ensures exists i: nat :: NearestLine(rs, addr, i)
  {
    ParseReflects(rs, |rs|, key.value);
    var i := LastLine(rs, |rs|, key.value).value;
    forall j | 0 <= j < |rs| && rs[j].LineRecord? && rs[j].addr <= addr
      ensures rs[j].addr < rs[i].addr || (rs[j].addr == rs[i].addr && j <= i)
    {
      ParseReflects(rs, |rs|, rs[j].addr);
    }
    assert NearestLine(rs, addr, i);
  }

  /**
    * Whatever the records, the lookup reports what the nearest line record at or below the address says, and
    * NotFound if there is none.
    */
  lemma LookupRefinesScan(rs: seq<Record>, addr: int, key: Option<int>)
    requires Parse(rs, |rs|).Some? && IsNearest(Parse(rs, |rs|).value.addresses, addr, key)
    ensures var x := Parse(rs, |rs|).value;
            var r := Describe(x.files, x.symbols, x.addresses, addr, key);
            && (forall i: nat :: NearestLine(rs, addr, i) ==> r == Reported(rs, x, i, addr))
            && ((forall i: nat :: !NearestLine(rs, addr, i)) ==> r == NotFound)
  {
    var x := Parse(rs, |rs|).value;
    forall i: nat | NearestLine(rs, addr, i)
      ensures Describe(x.files, x.symbols, x.addresses, addr, key) == Reported(rs, x, i, addr)
    {
      NearestReported(rs, addr, key, i);
    }
    if key.Some? { NearestExists(rs, addr, key); }
  }

  lemma CoverIsNearest(rs: seq<Record>, addr: int, i: nat)
    requires WellLaidOut(rs) && i < |rs| && LineCovers(rs[i], addr)
    ensures NearestLine(rs, addr, i)
  {
  }

  /** On a well laid out table a position is found exactly when some record covers the address and has a function and a file. */
  lemma FoundExactly(rs: seq<Record>, addr: int, key: Option<int>)
    requires WellLaidOut(rs) && Parse(rs, |rs|).Some?
    requires IsNearest(Parse(rs, |rs|).value.addresses, addr, key)
    ensures var x := Parse(rs, |rs|).value;
            Describe(x.files, x.symbols, x.addresses, addr, key).Found?
            <==> exists i :: 0 <= i < |rs| && LineCovers(rs[i], addr) && FunctionAt(rs, i).Some?
                                                && -|x.files| <= rs[i].file < |x.files|
  {
    var x := Parse(rs, |rs|).value;
    LookupRefinesScan(rs, addr, key);
    forall i: nat | i < |rs| && LineCovers(rs[i], addr) ensures NearestLine(rs, addr, i) { CoverIsNearest(rs, addr, i); }
    forall i | 0 <= i < |rs| && FunctionAt(rs, i).Some? ensures FunctionAt(rs, i).value in x.symbols {
      FunctionsNamed(rs, i, |rs|);
    }
  }
}
