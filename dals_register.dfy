/** GetAllDals and GetAllBusiness (EF-Core-Demo/Infrastructure/Extensions/
    DalsRegisterExtentsions.cs): the rules that pick the data-access types and pair
    business interfaces with their implementations for dependency injection. The
    loaded assemblies and the configuration values are inputs. */
module DalsRegister {
  import opened Common

  /** The identity of a System.Type. */
  type TypeId = nat

  /** The parts of a System.Type the rules read; `interfaces` are the identities
      GetInterfaces() returns. */
  datatype ClrType = ClrType(
    id: TypeId,
    name: string,
    ns: Option<string>,
    isNested: bool,
    isInterface: bool,
    interfaces: set<TypeId>)

  /** A loaded assembly: its manifest module's name and GetTypes(). */
  datatype Assembly = Assembly(moduleName: string, types: seq<ClrType>)

  /** The configuration sections "Dals", "Blls", "ModuleName" and "interfaceBlls". */
  datatype Configuration = Configuration(dals: string, blls: string, moduleName: string, interfaceBlls: string)

  /** A registration: a business interface and its implementation. */
  type Registration = (ClrType, ClrType)

  /** `part` occurs in `s` at position i. */
  predicate OccursAt(s: string, part: string, i: nat) {
    i + |part| <= |s| && s[i..i + |part|] == part
  }

  /** `string.Contains`: `part` occurs in `s` (ordinal comparison). */
  predicate Contains(s: string, part: string) {
    exists i: nat | i <= |s| - |part| :: OccursAt(s, part, i)
  }

  /** The type's namespace is not null and contains `fragment`. */
  predicate InNamespace(t: ClrType, fragment: string) {
    t.ns.Some? && Contains(t.ns.value, fragment)
  }

  /** LINQ `Where`: the elements that pass, in their order. */
  function Where(xs: seq<ClrType>, keep: ClrType -> bool): (r: seq<ClrType>)
    ensures forall x :: x in r <==> x in xs && keep(x)
    ensures |r| <= |xs|
    decreases |xs|
  {
    if xs == [] then []
    else
      var init, last := xs[..|xs| - 1], xs[|xs| - 1];
      assert xs == init + [last];
      Where(init, keep) + (if keep(last) then [last] else [])
  }

  /** The types of one assembly that GetAllDals selects. */
  function DalsOf(a: Assembly, dals: string): seq<ClrType> {
    Where(a.types, (t: ClrType) => InNamespace(t, dals))
  }

  /** `GetAllDals`: across all assemblies, in order, the types whose namespace is not
      null and contains the "Dals" value. */
  function GetAllDals(assemblies: seq<Assembly>, config: Configuration): (r: seq<ClrType>)
    ensures forall t :: t in r <==> InNamespace(t, config.dals) && exists a :: a in assemblies && t in a.types
    decreases |assemblies|
  {
    if assemblies == [] then []
    else
      var init, last := assemblies[..|assemblies| - 1], assemblies[|assemblies| - 1];
      assert assemblies == init + [last];
      GetAllDals(init, config) + DalsOf(last, config.dals)
  }

  /** The position of the last assembly, in scan order, whose manifest module is
      `name`: the one whose types the scan keeps. */
  function LastNamed(assemblies: seq<Assembly>, name: string): (r: Option<nat>)
    ensures r.None? <==> forall k :: 0 <= k < |assemblies| ==> assemblies[k].moduleName != name
    ensures r.Some? ==> r.value < |assemblies| && assemblies[r.value].moduleName == name
                        && forall j :: r.value < j < |assemblies| ==> assemblies[j].moduleName != name
    decreases |assemblies|
  {
    if assemblies == [] then None
    else if assemblies[|assemblies| - 1].moduleName == name then Some(|assemblies| - 1)
    else LastNamed(assemblies[..|assemblies| - 1], name)
  }

  /** The implementation candidates of one assembly: non-nested types whose namespace
      is not null and contains the "Blls" value. */
  function BusinessOf(a: Assembly, blls: string): seq<ClrType> {
    Where(a.types, (t: ClrType) => !t.isNested && InNamespace(t, blls))
  }

  /** The interface candidates of one assembly. */
  function InterfacesOf(a: Assembly): seq<ClrType> {
    Where(a.types, (t: ClrType) => t.isInterface)
  }

  /** `blls` after the scan: taken from the last assembly named "ModuleName". */
  function BusinessTypes(assemblies: seq<Assembly>, config: Configuration): (r: seq<ClrType>)
    ensures forall t :: t in r <==> var k := LastNamed(assemblies, config.moduleName);
      k.Some? && t in assemblies[k.value].types && !t.isNested && InNamespace(t, config.blls)
  {
    match LastNamed(assemblies, config.moduleName)
    case None => []
    case Some(k) => BusinessOf(assemblies[k], config.blls)
  }

  /** `interfaceBlls` after the scan: taken from the last assembly named "interfaceBlls". */
  function InterfaceTypes(assemblies: seq<Assembly>, config: Configuration): (r: seq<ClrType>)
    ensures forall t :: t in r <==> var k := LastNamed(assemblies, config.interfaceBlls);
      k.Some? && t in assemblies[k.value].types && t.isInterface
  {
    match LastNamed(assemblies, config.interfaceBlls)
    case None => []
    case Some(k) => InterfacesOf(assemblies[k])
  }

  /** The pairing test: the implementation implements the interface and the
      interface's name contains the implementation's name. */
  predicate Implements(bll: ClrType, item: ClrType) {
    item.id in bll.interfaces && Contains(item.name, bll.name)
  }

  /** The registrations the inner loop finds for one interface, in order. */
  function Row(item: ClrType, blls: seq<ClrType>): (r: seq<Registration>)
    ensures forall reg :: reg in r <==> reg.0 == item && reg.1 in blls && Implements(reg.1, item)
    decreases |blls|
  {
    if blls == [] then []
    else
      var bll := blls[|blls| - 1];
      Row(item, blls[..|blls| - 1]) + (if Implements(bll, item) then [(item, bll)] else [])
  }

  /** The registrations the nested loops find, in the order they are added. */
  function Pairs(items: seq<ClrType>, blls: seq<ClrType>): (r: seq<Registration>)
    ensures forall reg :: reg in r <==> reg.0 in items && reg.1 in blls && Implements(reg.1, reg.0)
    decreases |items|
  {
    if items == [] then [] else Pairs(items[..|items| - 1], blls) + Row(items[|items| - 1], blls)
  }

  /** `Dictionary.Add` of each registration in turn: a key already present raises
      ArgumentException. */
  function AddAll(start: map<ClrType, ClrType>, regs: seq<Registration>): Result<map<ClrType, ClrType>>
    decreases |regs|
  {
    if regs == [] then Ok(start)
    else
      match AddAll(start, regs[..|regs| - 1])
      case Err(e) => Err(e)
      case Ok(m) =>
        var (item, bll) := regs[|regs| - 1];
        if item in m then Err(ArgumentException) else Ok(m[item := bll])
  }

  /** `GetAllBusiness`, specified: no interface candidates give no registrations,
      otherwise every pair found is added to an empty dictionary. */
  function BusinessMap(assemblies: seq<Assembly>, config: Configuration): Result<map<ClrType, ClrType>> {
    var interfaceBlls := InterfaceTypes(assemblies, config);
    if |interfaceBlls| < 1 then Ok(map[])
    else AddAll(map[], Pairs(interfaceBlls, BusinessTypes(assemblies, config)))
  }

  /** `GetAllBusiness`: scan the assemblies, give up without interface candidates,
      otherwise register every matching pair. */
  method GetAllBusiness(assemblies: seq<Assembly>, config: Configuration) returns (result: Result<map<ClrType, ClrType>>)
    ensures result == BusinessMap(assemblies, config)
  {
    var interfaceBlls, blls := ScanAssemblies(assemblies, config);
    if |interfaceBlls| < 1 {
      return Ok(map[]);
    }
    result := AddPairs(interfaceBlls, blls);
  }

  /** The scan over the assemblies: every assembly with a configured module name
      replaces the candidates found so far. */
  method ScanAssemblies(assemblies: seq<Assembly>, config: Configuration) returns (interfaceBlls: seq<ClrType>, blls: seq<ClrType>)
    ensures blls == BusinessTypes(assemblies, config)
    ensures interfaceBlls == InterfaceTypes(assemblies, config)
  {
    interfaceBlls, blls := [], [];
    for k := 0 to |assemblies|
      invariant blls == BusinessTypes(assemblies[..k], config)
      invariant interfaceBlls == InterfaceTypes(assemblies[..k], config)
    {
      ScanStep(assemblies, k, config);
      var assembly := assemblies[k];
      if assembly.moduleName == config.moduleName {
        blls := BusinessOf(assembly, config.blls);
      }
      if assembly.moduleName == config.interfaceBlls {
        interfaceBlls := InterfacesOf(assembly);
      }
    }
    assert assemblies[..|assemblies|] == assemblies;
  }

  /** The nested loops: each matching (interface, implementation) pair is added to the
      dictionary in turn, and the first repeated interface raises ArgumentException. */
  method AddPairs(interfaceBlls: seq<ClrType>, blls: seq<ClrType>) returns (result: Result<map<ClrType, ClrType>>)
    ensures result == AddAll(map[], Pairs(interfaceBlls, blls))
  {
    var dict: map<ClrType, ClrType> := map[];
    for x := 0 to |interfaceBlls|
      invariant AddAll(map[], Pairs(interfaceBlls[..x], blls)) == Ok(dict)
    {
      var item := interfaceBlls[x];
      ghost var before := Pairs(interfaceBlls[..x], blls);
      assert blls[..0] == [] && before + [] == before;
      for y := 0 to |blls|
        invariant AddAll(map[], before + Row(item, blls[..y])) == Ok(dict)
      {
        var bll := blls[y];
        RowStep(before, item, blls, y);
        if Implements(bll, item) {
          ghost var found := before + Row(item, blls[..y]);
          AddStep(found, item, bll, dict);
          if item in dict {
            assert AddAll(map[], Pairs(interfaceBlls, blls)) == Err(ArgumentException) by {
              PairsPrefix(interfaceBlls, blls, x, y + 1);
              AddAllErrExtends(map[], found + [(item, bll)], Pairs(interfaceBlls, blls));
            }
            return Err(ArgumentException);
          }
          dict := dict[item := bll];
        }
      }
      assert blls[..|blls|] == blls;
      PairsStep(interfaceBlls, blls, x);
    }
    assert interfaceBlls[..|interfaceBlls|] == interfaceBlls;
    return Ok(dict);
  }

  lemma ScanStep(assemblies: seq<Assembly>, k: nat, config: Configuration)
    requires k < |assemblies|
    ensures BusinessTypes(assemblies[..k + 1], config)
         == if assemblies[k].moduleName == config.moduleName then BusinessOf(assemblies[k], config.blls)
            else BusinessTypes(assemblies[..k], config)
    ensures InterfaceTypes(assemblies[..k + 1], config)
         == if assemblies[k].moduleName == config.interfaceBlls then InterfacesOf(assemblies[k])
            else InterfaceTypes(assemblies[..k], config)
  {
    assert assemblies[..k + 1][..k] == assemblies[..k];
  }

  lemma RowStep(before: seq<Registration>, item: ClrType, blls: seq<ClrType>, y: nat)
    requires y < |blls|
    ensures Implements(blls[y], item)
            ==> before + Row(item, blls[..y + 1]) == before + Row(item, blls[..y]) + [(item, blls[y])]
    ensures !Implements(blls[y], item) ==> before + Row(item, blls[..y + 1]) == before + Row(item, blls[..y])
  {
    assert blls[..y + 1][..y] == blls[..y];
    if Implements(blls[y], item) {
      assert Row(item, blls[..y + 1]) == Row(item, blls[..y]) + [(item, blls[y])];
    } else {
      assert Row(item, blls[..y + 1]) == Row(item, blls[..y]) + [];
    }
  }

  lemma PairsStep(items: seq<ClrType>, blls: seq<ClrType>, x: nat)
    requires x < |items|
    ensures Pairs(items[..x + 1], blls) == Pairs(items[..x], blls) + Row(items[x], blls)
  {
    assert items[..x + 1][..x] == items[..x];
  }

  lemma AddStep(found: seq<Registration>, item: ClrType, bll: ClrType, dict: map<ClrType, ClrType>)
    requires AddAll(map[], found) == Ok(dict)
    ensures AddAll(map[], found + [(item, bll)])
         == if item in dict then Err(ArgumentException) else Ok(dict[item := bll])
  {
    assert (found + [(item, bll)])[..|found|] == found;
  }

  // ---------------------------------------------------------------------------
  // Properties

  /** Once an Add has failed, adding more registrations does not recover. */
  lemma {:induction false} AddAllErrExtends(start: map<ClrType, ClrType>, regs: seq<Registration>, more: seq<Registration>)
    requires AddAll(start, regs).Err? && regs <= more
    ensures AddAll(start, more) == AddAll(start, regs)
    decreases |more|
  {
    if |more| > |regs| {
      assert more[..|more| - 1][..|regs|] == regs;
      AddAllErrExtends(start, regs, more[..|more| - 1]);
    } else {
      assert more == regs;
    }
  }

  lemma {:induction false} RowPrefix(item: ClrType, blls: seq<ClrType>, y: nat)
    requires y <= |blls|
    ensures Row(item, blls[..y]) <= Row(item, blls)
    decreases |blls|
  {
    if y < |blls| {
      assert blls[..|blls| - 1][..y] == blls[..y];
      RowPrefix(item, blls[..|blls| - 1], y);
    } else {
      assert blls[..y] == blls;
    }
  }

  lemma {:induction false} PairsGrow(items: seq<ClrType>, blls: seq<ClrType>, x: nat)
    requires x <= |items|
    ensures Pairs(items[..x], blls) <= Pairs(items, blls)
    decreases |items|
  {
    if x < |items| {
      assert items[..|items| - 1][..x] == items[..x];
      PairsGrow(items[..|items| - 1], blls, x);
    } else {
      assert items[..x] == items;
    }
  }

  /** What the nested loops have found part-way through is a prefix of all the pairs. */
  lemma PairsPrefix(items: seq<ClrType>, blls: seq<ClrType>, x: nat, y: nat)
    requires x < |items| && y <= |blls|
    ensures Pairs(items[..x], blls) + Row(items[x], blls[..y]) <= Pairs(items, blls)
  {
    assert items[..x + 1][..x] == items[..x];
    PairsGrow(items, blls, x + 1);
    RowPrefix(items[x], blls, y);
  }

  /** When several assemblies carry the configured module name, the last one scanned
      supplies the candidates, because the scan reassigns the arrays. */
  lemma LastScannedWins(assemblies: seq<Assembly>, config: Configuration, k: nat)
    requires k < |assemblies|
    requires forall j :: k < j < |assemblies| ==> assemblies[j].moduleName != assemblies[k].moduleName
    ensures assemblies[k].moduleName == config.moduleName
            ==> BusinessTypes(assemblies, config) == BusinessOf(assemblies[k], config.blls)
    ensures assemblies[k].moduleName == config.interfaceBlls
            ==> InterfaceTypes(assemblies, config) == InterfacesOf(assemblies[k])
  {
    var name := assemblies[k].moduleName;
    var k' := LastNamed(assemblies, name).value;
    assert assemblies[k].moduleName == name && assemblies[k'].moduleName == name;
  }

  /** Without an interface among the types of the interface assembly (or without such
      an assembly), nothing is registered. */
  lemma NoInterfacesNoRegistrations(assemblies: seq<Assembly>, config: Configuration)
    requires var k := LastNamed(assemblies, config.interfaceBlls);
      k.Some? ==> forall t :: t in assemblies[k.value].types ==> !t.isInterface
    ensures BusinessMap(assemblies, config) == Ok(map[])
  {
  }

  /** No two registrations name the same interface. */
  predicate KeysDistinct(regs: seq<Registration>) {
    forall i, j :: 0 <= i < j < |regs| ==> regs[i].0 != regs[j].0
  }

  /** A successful run of Adds leaves each registration's pair in the dictionary, and
      nothing else. */
  lemma {:induction false} AddAllContents(regs: seq<Registration>)
    requires AddAll(map[], regs).Ok?
    ensures forall reg :: reg in regs ==> reg.0 in AddAll(map[], regs).value && AddAll(map[], regs).value[reg.0] == reg.1
    ensures forall k :: k in AddAll(map[], regs).value ==> (k, AddAll(map[], regs).value[k]) in regs
    decreases |regs|
  {
    if regs != [] {
      var init, last := regs[..|regs| - 1], regs[|regs| - 1];
      AddAllContents(init);
      assert regs == init + [last];
    }
  }

  /** Adding to an empty dictionary succeeds exactly when no interface is registered
      twice, and fails only with ArgumentException. */
  lemma {:induction false} AddAllSucceedsIff(regs: seq<Registration>)
    ensures AddAll(map[], regs).Ok? <==> KeysDistinct(regs)
    ensures AddAll(map[], regs).Err? ==> AddAll(map[], regs).error == ArgumentException
    decreases |regs|
  {
    if regs != [] {
      var init, last := regs[..|regs| - 1], regs[|regs| - 1];
      AddAllSucceedsIff(init);
      assert forall i :: 0 <= i < |init| ==> regs[i] == init[i];
      if AddAll(map[], init).Ok? {
        var m := AddAll(map[], init).value;
        AddAllContents(init);
        if last.0 in m {
          var i :| 0 <= i < |init| && init[i] == (last.0, m[last.0]);
          assert regs[i].0 == regs[|regs| - 1].0;
        } else {
          forall i, j | 0 <= i < j < |regs|
            ensures regs[i].0 != regs[j].0
          {
            assert j == |regs| - 1 ==> init[i] in init;
          }
        }
      }
    }
  }

  /** GetAllBusiness succeeds exactly when no interface candidate is paired twice, and
      otherwise fails with ArgumentException. */
  lemma BusinessMapSucceedsIff(assemblies: seq<Assembly>, config: Configuration)
    ensures BusinessMap(assemblies, config).Ok?
        <==> KeysDistinct(Pairs(InterfaceTypes(assemblies, config), BusinessTypes(assemblies, config)))
    ensures BusinessMap(assemblies, config).Err? ==> BusinessMap(assemblies, config).error == ArgumentException
  {
    AddAllSucceedsIff(Pairs(InterfaceTypes(assemblies, config), BusinessTypes(assemblies, config)));
  }

  /** On success, interface I is registered with implementation B exactly when I is an
      interface candidate, B an implementation candidate, B implements I and I's name
      contains B's name. */
  lemma BusinessMapSoundComplete(assemblies: seq<Assembly>, config: Configuration)
    requires BusinessMap(assemblies, config).Ok?
    ensures var m := BusinessMap(assemblies, config).value;
      forall i, b :: i in m && m[i] == b
        <==> i in InterfaceTypes(assemblies, config) && b in BusinessTypes(assemblies, config) && Implements(b, i)
  {
    var ifs, blls := InterfaceTypes(assemblies, config), BusinessTypes(assemblies, config);
    var m := BusinessMap(assemblies, config).value;
    if |ifs| < 1 {
      assert forall i :: i !in ifs;
    } else {
      var regs := Pairs(ifs, blls);
      assert m == AddAll(map[], regs).value;
      AddAllContents(regs);
      forall i, b
        ensures i in m && m[i] == b <==> i in ifs && b in blls && Implements(b, i)
      {
        if i in m && m[i] == b {
          assert (i, m[i]) in regs;
        }
        if i in ifs && b in blls && Implements(b, i) {
          assert (i, b) in regs;
        }
      }
    }
  }

  /** Two implementations of the same interface candidate raise ArgumentException: the
      dictionary refuses the second Add. */
  lemma SecondMatchThrows(assemblies: seq<Assembly>, config: Configuration, item: ClrType, y1: nat, y2: nat)
    requires item in InterfaceTypes(assemblies, config)
    requires y1 < y2 < |BusinessTypes(assemblies, config)|
    requires Implements(BusinessTypes(assemblies, config)[y1], item)
    requires Implements(BusinessTypes(assemblies, config)[y2], item)
    ensures BusinessMap(assemblies, config) == Err(ArgumentException)
  {
    var ifs, blls := InterfaceTypes(assemblies, config), BusinessTypes(assemblies, config);
    SecondMatchRepeats(ifs, blls, item, y1, y2);
    AddAllSucceedsIff(Pairs(ifs, blls));
  }

  /** The pairs found repeat an interface that matches two implementations. */
  lemma SecondMatchRepeats(ifs: seq<ClrType>, blls: seq<ClrType>, item: ClrType, y1: nat, y2: nat)
    requires item in ifs && y1 < y2 < |blls|
    requires Implements(blls[y1], item) && Implements(blls[y2], item)
    ensures !KeysDistinct(Pairs(ifs, blls))
  {
    var x :| 0 <= x < |ifs| && ifs[x] == item;
    RepeatedInterface(Pairs(ifs[..x], blls), item, blls, y1, y2);
    PrefixRepeats(ifs, blls, x, y2 + 1);
  }

  /** An interface repeated among the pairs found part-way is repeated among all. */
  lemma PrefixRepeats(ifs: seq<ClrType>, blls: seq<ClrType>, x: nat, y: nat)
    requires x < |ifs| && y <= |blls|
    requires !KeysDistinct(Pairs(ifs[..x], blls) + Row(ifs[x], blls[..y]))
    ensures !KeysDistinct(Pairs(ifs, blls))
  {
    PairsPrefix(ifs, blls, x, y);
    RepeatExtends(Pairs(ifs[..x], blls) + Row(ifs[x], blls[..y]), Pairs(ifs, blls));
  }

  /** Two implementations found for one interface give two registrations with that key. */
  lemma RepeatedInterface(before: seq<Registration>, item: ClrType, blls: seq<ClrType>, y1: nat, y2: nat)
    requires y1 < y2 < |blls| && Implements(blls[y1], item) && Implements(blls[y2], item)
    ensures !KeysDistinct(before + Row(item, blls[..y2 + 1]))
  {
    var row := Row(item, blls[..y2]);
    RowStep(before, item, blls, y2);
    assert blls[..y2][y1] == blls[y1];
    assert (item, blls[y1]) in row;
    var j :| 0 <= j < |row| && row[j] == (item, blls[y1]);
    var found := before + row + [(item, blls[y2])];
    assert found[|before| + j].0 == item && found[|found| - 1].0 == item;
  }

  /** An interface repeated in a prefix of the registrations is repeated in all of them. */
  lemma RepeatExtends(prefix: seq<Registration>, regs: seq<Registration>)
    requires prefix <= regs && !KeysDistinct(prefix)
    ensures !KeysDistinct(regs)
  {
    var i, j :| 0 <= i < j < |prefix| && prefix[i].0 == prefix[j].0;
    assert regs[i] == prefix[i] && regs[j] == prefix[j];
  }
}
