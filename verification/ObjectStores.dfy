/**
 The offline export / remove / import of a placement group between the stores of
 dead OSDs, as `kill_osd` performs it, with a ledger of every change to the stores.
 */
module ObjectStores {
  import opened PyLists

  type Pg = string
  type Stores = map<int, set<Pg>>

  /** An export file: which machine it is on, and the `exp.{pg}.{id}` of its name. */
  datatype File = File(machine: int, pg: Pg, id: int)

  /**
   Drifted: the daemons in `ran` rewrote their own stores.
   Moved: exported from `src`, imported into `dst` (perhaps `src` again).
   Ignored: the import ended with status 10 or 11 and the thrasher carried on.
   Stranded: the thrasher raised between the remove and a successful import.
   */
  datatype Entry =
    | Drifted(ran: set<int>, after: Stores)
    | Moved(pg: Pg, src: int, dst: int)
    | Ignored(pg: Pg, src: int)
    | Stranded(pg: Pg, src: int)

  ghost predicate Legal(s: Stores, e: Entry) {
    match e
    case Drifted(ran, after) => after.Keys == s.Keys && forall o :: o in s && o !in ran ==> after[o] == s[o]
    case Moved(pg, src, dst) => src in s && dst in s && pg in s[src] && (dst == src || pg !in s[dst])
    case Ignored(pg, src) => src in s && pg in s[src]
    case Stranded(pg, src) => src in s && pg in s[src]
  }

  ghost function Apply(s: Stores, e: Entry): Stores
    requires Legal(s, e)
  {
    match e
    case Drifted(_, after) => after
    case Moved(pg, src, dst) =>
      var t := s[src := s[src] - {pg}];
      t[dst := t[dst] + {pg}]
    case Ignored(pg, src) => s[src := s[src] - {pg}]
    case Stranded(pg, src) => s[src := s[src] - {pg}]
  }

  ghost predicate LegalRun(s: Stores, ledger: seq<Entry>) {
    ledger == [] || (Legal(s, ledger[0]) && LegalRun(Apply(s, ledger[0]), ledger[1..]))
  }

  ghost function Replay(s: Stores, ledger: seq<Entry>): Stores
    requires LegalRun(s, ledger)
  {
    if ledger == [] then s else Replay(Apply(s, ledger[0]), ledger[1..])
  }

  lemma {:induction false} ReplayAppend(s: Stores, ledger: seq<Entry>, e: Entry)
    requires LegalRun(s, ledger) && Legal(Replay(s, ledger), e)
    ensures LegalRun(s, ledger + [e]) && Replay(s, ledger + [e]) == Apply(Replay(s, ledger), e)
  {
    if ledger == [] {
      assert (ledger + [e])[1..] == [];
    } else {
      ReplayAppend(Apply(s, ledger[0]), ledger[1..], e);
      assert (ledger + [e])[1..] == ledger[1..] + [e];
    }
  }

  lemma {:induction false} LegalParts(s: Stores, front: seq<Entry>, back: seq<Entry>)
    requires LegalRun(s, front + back)
    ensures LegalRun(s, front) && LegalRun(Replay(s, front), back)
    ensures Replay(s, front + back) == Replay(Replay(s, front), back)
  {
    if front == [] {
      assert front + back == back;
    } else {
      assert (front + back)[0] == front[0] && (front + back)[1..] == front[1..] + back;
      LegalParts(Apply(s, front[0]), front[1..], back);
    }
  }

  lemma LegalPrefix(s: Stores, ledger: seq<Entry>, k: nat)
    requires LegalRun(s, ledger) && k <= |ledger|
    ensures LegalRun(s, ledger[..k]) && LegalRun(Replay(s, ledger[..k]), ledger[k..])
    ensures Replay(s, ledger) == Replay(Replay(s, ledger[..k]), ledger[k..])
  {
    assert ledger == ledger[..k] + ledger[k..];
    LegalParts(s, ledger[..k], ledger[k..]);
  }

  lemma ReplayLast(s: Stores, ledger: seq<Entry>)
    requires LegalRun(s, ledger) && ledger != []
    ensures var front, last := ledger[..|ledger| - 1], ledger[|ledger| - 1];
            LegalRun(s, front) && Legal(Replay(s, front), last) && Replay(s, ledger) == Apply(Replay(s, front), last)
  {
    var k := |ledger| - 1;
    LegalPrefix(s, ledger, k);
    assert ledger[k..][0] == ledger[k] && ledger[k..][1..] == [];
  }

  lemma {:induction false} ReplayKeys(s: Stores, ledger: seq<Entry>)
    requires LegalRun(s, ledger)
    ensures Replay(s, ledger).Keys == s.Keys
  {
    if ledger != [] {
      ReplayKeys(Apply(s, ledger[0]), ledger[1..]);
    }
  }

  ghost function Holders(s: Stores, pg: Pg): set<int> {
    set o | o in s && pg in s[o]
  }

  ghost function Copies(s: Stores, pg: Pg): nat {
    |Holders(s, pg)|
  }

  ghost function CopiesIn(some: set<int>, s: Stores, pg: Pg): nat {
    |Holders(s, pg) * some|
  }

  /** Copies of `pg` the daemons made or dropped in their own stores during the run. */
  ghost function Drift(s: Stores, ledger: seq<Entry>, pg: Pg): int
    requires LegalRun(s, ledger)
  {
    if ledger == [] then 0
    else
      (if ledger[0].Drifted? then CopiesIn(ledger[0].ran, ledger[0].after, pg) - CopiesIn(ledger[0].ran, s, pg) else 0)
      + Drift(Apply(s, ledger[0]), ledger[1..], pg)
  }

  function Lost(ledger: seq<Entry>, pg: Pg): nat {
    if ledger == [] then 0
    else
      (if (ledger[0].Ignored? || ledger[0].Stranded?) && ledger[0].pg == pg then 1 else 0)
      + Lost(ledger[1..], pg)
  }

  /** Taking `pg` out of the store of one of its holders. */
  lemma TakenOut(s: Stores, src: int, taken: Pg, pg: Pg)
    requires src in s && taken in s[src]
    ensures Copies(s[src := s[src] - {taken}], pg) == Copies(s, pg) - (if pg == taken then 1 else 0)
  {
    var t := s[src := s[src] - {taken}];
    if pg == taken {
      assert Holders(t, pg) == Holders(s, pg) - {src};
      assert src in Holders(s, pg);
    } else {
      assert Holders(t, pg) == Holders(s, pg);
    }
  }

  lemma PutIn(s: Stores, dst: int, put: Pg, pg: Pg)
    requires dst in s && put !in s[dst]
    ensures Copies(s[dst := s[dst] + {put}], pg) == Copies(s, pg) + (if pg == put then 1 else 0)
  {
    var t := s[dst := s[dst] + {put}];
    if pg == put {
      assert Holders(t, pg) == Holders(s, pg) + {dst};
      assert dst !in Holders(s, pg);
    } else {
      assert Holders(t, pg) == Holders(s, pg);
    }
  }

  /** What the daemons that ran did to their own stores is all that changed. */
  lemma DriftChange(s: Stores, e: Entry, pg: Pg)
    requires Legal(s, e) && e.Drifted?
    ensures Copies(e.after, pg) - Copies(s, pg) == CopiesIn(e.ran, e.after, pg) - CopiesIn(e.ran, s, pg)
  {
    var h, h' := Holders(s, pg), Holders(e.after, pg);
    forall o ensures o in h - e.ran <==> o in h' - e.ran {
      assert o in s && o !in e.ran ==> e.after[o] == s[o];
      assert o in s <==> o in e.after.Keys;
    }
    assert h - e.ran == h' - e.ran;
    assert h == h * e.ran + (h - e.ran) && h' == h' * e.ran + (h' - e.ran);
  }

  lemma ToolChange(s: Stores, e: Entry, pg: Pg)
    requires Legal(s, e) && !e.Drifted?
    ensures Copies(Apply(s, e), pg) ==
            Copies(s, pg) - (if !e.Moved? && e.pg == pg then 1 else 0)
  {
    TakenOut(s, e.src, e.pg, pg);
    if e.Moved? {
      PutIn(s[e.src := s[e.src] - {e.pg}], e.dst, e.pg, pg);
    }
  }

  /** Conservation: over any run the tool loses exactly one copy per ignored or stranded import. */
  lemma {:induction false} Conservation(s: Stores, ledger: seq<Entry>, pg: Pg)
    requires LegalRun(s, ledger)
    ensures Copies(Replay(s, ledger), pg) == Copies(s, pg) + Drift(s, ledger, pg) - Lost(ledger, pg)
  {
    if ledger != [] {
      if ledger[0].Drifted? {
        DriftChange(s, ledger[0], pg);
      } else {
        ToolChange(s, ledger[0], pg);
      }
      Conservation(Apply(s, ledger[0]), ledger[1..], pg);
    }
  }

  ghost predicate NoneStranded(ledger: seq<Entry>) {
    forall i :: 0 <= i < |ledger| ==> !ledger[i].Stranded?
  }

  function IgnoredImports(ledger: seq<Entry>, pg: Pg): nat {
    if ledger == [] then 0
    else (if ledger[0].Ignored? && ledger[0].pg == pg then 1 else 0) + IgnoredImports(ledger[1..], pg)
  }

  /** In a run that has not raised, every copy lost is an import whose status 10 or 11 was ignored. */
  lemma {:induction false} OnlyIgnoredAreLost(ledger: seq<Entry>, pg: Pg)
    requires NoneStranded(ledger)
    ensures Lost(ledger, pg) == IgnoredImports(ledger, pg)
  {
    if ledger != [] {
      assert NoneStranded(ledger[1..]);
      OnlyIgnoredAreLost(ledger[1..], pg);
    }
  }

  class ObjectStoreTool {
    const machine: map<int, int>
    ghost const initial: Stores
    var stores: Stores
    var files: set<File>
    ghost var ledger: seq<Entry>

    ghost predicate Valid()
      reads this
    {
      && machine.Keys == stores.Keys
      && LegalRun(initial, ledger)
      && stores == Replay(initial, ledger)
    }

    constructor (stores: Stores, machine: map<int, int>)
      requires machine.Keys == stores.Keys
      ensures Valid() && files == {} && ledger == []
      ensures this.stores == stores && this.machine == machine && initial == stores
    {
      this.stores, this.initial, this.machine := stores, stores, machine;
      files, ledger := {}, [];
    }

    /** The books balance, for every group and at every moment the tool is not at work. */
    lemma Balance(pg: Pg)
      requires Valid()
      ensures Copies(stores, pg) == Copies(initial, pg) + Drift(initial, ledger, pg) - Lost(ledger, pg)
      ensures NoneStranded(ledger) ==>
                Copies(stores, pg) == Copies(initial, pg) + Drift(initial, ledger, pg) - IgnoredImports(ledger, pg)
    {
      Conservation(initial, ledger, pg);
      if NoneStranded(ledger) {
        OnlyIgnoredAreLost(ledger, pg);
      }
    }

    /** Time passes: the daemons in `ran` may have rewritten their stores since the last kill. */
    method DaemonsRan(ran: set<int>)
      requires Valid()
      modifies this
      ensures Valid() && files == old(files) && stores.Keys == old(stores).Keys
      ensures forall o :: o in stores && o !in ran ==> stores[o] == old(stores)[o]
      ensures ledger == old(ledger) + [Drifted(ran, stores)]
    {
      var after: Stores :| after.Keys == stores.Keys && forall o :: o in stores && o !in ran ==> after[o] == stores[o];
      ReplayAppend(initial, ledger, Drifted(ran, after));
      stores, ledger := after, ledger + [Drifted(ran, after)];
    }

    /** `--op import`: the tool insists on a stopped daemon, a local file, and no copy already there. */
    method Import(id: int, f: File, status: int, ghost running: set<int>)
      requires id in stores && id in machine && id !in running
      requires f in files && f.machine == machine[id]
      requires f.pg !in stores[id]
      modifies this`stores
      ensures stores == if status == 0 then old(stores)[id := old(stores)[id] + {f.pg}] else old(stores)
    {
      if status == 0 {
        stores := stores[id := stores[id] + {f.pg}];
      }
    }

    /**
     What one exercise may enter in the ledger. The copy a raising run took out of a
     store is still in its export file.
     */
    ghost predicate Touch(e: Entry, osd: int, dead: seq<int>, before: Stores, raised: bool)
      reads this
    {
      && !e.Drifted?
      && Legal(before, e)
      && e.src in dead
      && (e.Moved? ==> e.dst == if osd in before && e.pg !in before[osd] then osd else e.src)
      && (e.Stranded? ==> raised && e.src in machine && File(machine[e.src], e.pg, e.src) in files)
    }

    /** What becomes of the group: imported on 0, given up on 10 and 11, and on any other status the kill raises. */
    predicate Judged(e: Entry, status: int, raised: bool) {
      && (e.Moved? ==> status == 0)
      && (e.Ignored? ==> status == 10 || status == 11)
      && (status != 0 && status != 10 && status != 11 ==> e.Stranded? && raised)
    }

    /** The OSDs a group may be exported from. */
    function Sources(osd: int, dead: seq<int>, move: bool): seq<int> {
      if |dead| > 1 && move then dead[..|dead| - 1] else [osd]
    }

    /**
     The object-store part of `kill_osd(osd)`: `dead` is the thrasher's dead list, whose
     last element is the OSD just killed, and with `move` a group of an older one is taken if
     there is one. Each command may fail and raise; otherwise only an empty store is left alone.
     `status` is how the import ends, if it comes to that.
     */
    method Exercise(osd: int, dead: seq<int>, move: bool, status: int, ghost running: set<int>)
      returns (raised: bool, ghost entry: Option<Entry>)
      requires Valid() && files == {}
      requires dead != [] && dead[|dead| - 1] == osd && NoDup(dead)
      requires Elements(dead) <= stores.Keys && Elements(dead) !! running
      modifies this
      ensures Valid() && stores.Keys == old(stores).Keys
      ensures !raised ==> files == {}
      ensures entry.None? ==> ledger == old(ledger) && stores == old(stores)
      ensures entry.Some? ==> ledger == old(ledger) + [entry.value]
                              && Touch(entry.value, osd, dead, old(stores), raised)
                              && stores == Apply(old(stores), entry.value)
      ensures entry.Some? ==> entry.value.src in Sources(osd, dead, move) && Judged(entry.value, status, raised)
      ensures !raised && entry.None? ==> exists o :: o in Sources(osd, dead, move) && o in old(stores) && old(stores)[o] == {}
    {
      entry := None;
      assert forall o :: o in dead ==> o in Elements(dead);
      var src := osd;
      if |dead| > 1 && move {
        src := Choice(dead[..|dead| - 1]);
      }
      var ok: bool := *;
      if !ok { return true, None; }           // exp list-pgs failure
      if stores[src] == {} { return false, None; }
      var pg :| pg in stores[src];

      ok := *;
      if !ok { return true, None; }           // export failure
      files := files + {File(machine[src], pg, src)};

      ok := *;
      if !ok { return true, None; }           // remove failure
      ghost var before := stores;
      stores := stores[src := stores[src] - {pg}];
      raised, entry := Reimport(osd, src, pg, status, before, dead, running);
    }

    /** From the removal on: decide where to import, import, and delete the export file. */
    method Reimport(osd: int, src: int, pg: Pg, status: int, ghost before: Stores, ghost dead: seq<int>, ghost running: set<int>)
      returns (raised: bool, ghost entry: Option<Entry>)
      requires osd in dead && src in dead && osd in before && src in before && osd !in running && src !in running
      requires machine.Keys == before.Keys && pg in before[src]
      requires LegalRun(initial, ledger) && before == Replay(initial, ledger)
      requires stores == before[src := before[src] - {pg}] && files == {File(machine[src], pg, src)}
      modifies this
      ensures Valid() && stores.Keys == before.Keys
      ensures !raised ==> files == {}
      ensures entry.Some? && ledger == old(ledger) + [entry.value]
      ensures Touch(entry.value, osd, dead, before, raised) && stores == Apply(before, entry.value)
      ensures entry.value.src == src && entry.value.pg == pg && Judged(entry.value, status, raised)
    {
      var f := File(machine[src], pg, src);
      var dst := osd;
      if src != dst {
        var ok: bool := *;
        if !ok {                              // imp list-pgs failure
          entry := Some(Stranded(pg, src));
          Post(before, entry.value);
          return true, entry;
        }
        if pg !in stores[dst] {
          if machine[dst] != machine[src] {
            ok := *;
            if !ok {                          // transfer failure
              entry := Some(Stranded(pg, src));
              Post(before, entry.value);
              return true, entry;
            }
            files := files + {f.(machine := machine[dst])};
          }
        } else {
          dst := src;
        }
      }
      Import(dst, f.(machine := machine[dst]), status, running);
      entry := Some(if status == 0 then Moved(pg, src, dst)
                    else if status == 10 || status == 11 then Ignored(pg, src)
                    else Stranded(pg, src));
      Post(before, entry.value);
      if status != 0 && status != 10 && status != 11 {
        return true, entry;
      }
      raised := *;
      if raised { return; }                   // the export file stays behind
      files := files - {f};
      if machine[dst] != machine[src] {
        raised := *;
        if raised { return; }                 // its copy stays behind
        files := files - {f.(machine := machine[dst])};
      }
      raised := *;                            // apply-layout-settings failure
    }

    /** Enters in the ledger a change the stores have just undergone. */
    ghost method Post(before: Stores, e: Entry)
      requires LegalRun(initial, ledger) && before == Replay(initial, ledger)
      requires Legal(before, e) && stores == Apply(before, e) && machine.Keys == stores.Keys
      modifies this`ledger
      ensures Valid() && ledger == old(ledger) + [e]
    {
      ReplayAppend(initial, ledger, e);
      ledger := ledger + [e];
    }
  }
}
