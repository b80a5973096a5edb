/** The household store of `src/lib/household-store.ts`, with the token gate of `src/lib/mutate-gate.ts`. */
module HouseholdStore {
  // The closure fields that decide which answer may be shown, and the code that runs between two awaits. The
  // value type `Store` says what each piece of that code does; the class `HouseholdStore` is the code.
  import opened Wrappers

  datatype Status = Loading | Ready | SignedOut | Incompatible

  /** `check`: the client asks about compatibility beside every read. `guard`: it has an offline guard. */
  datatype Config = Config(check: bool, guard: bool)

  /** A local change to the shown lists: a write's optimistic change, or its result applied. */
  datatype Change = Optimistic(token: nat) | Applied(token: nat)

  /** What lists start from: nothing, or the server's groups and devices as read at two moments.
      A moment is the number of writes that had landed. */
  datatype Base = Nothing | Read(groups: nat, devices: nat)

  /** The shown groups and devices, by where they came from: the store never looks inside them. */
  datatype Lists = Lists(base: Base, changes: seq<Change>)

  /** The shown rules: the moment they were read, and the writes whose result was applied since. */
  datatype RuleList = RuleList(base: Option<nat>, applied: seq<nat>)

  const EMPTY := Lists(Nothing, [])
  const NO_RULES := RuleList(None, [])

  datatype Snapshot = Snapshot(groups: nat, devices: nat, rules: nat)

  /** A compatibility check's answer: it could not be made, or what it said. */
  datatype Compatibility = Unknown | Compatible | Mismatch

  datatype Store = Store(
    status: Status, stale: bool, lists: Lists, rules: RuleList,
    loadGen: nat, latest: nat, busyCount: int, reloadAfterWrites: bool, loadsInFlight: int,
    busyGroups: seq<string>)
  {
    predicate CanControl(cfg: Config) {
      status != Incompatible && (cfg.guard ==> status == Ready && !stale)
    }

    /** `reload` up to its first await. */
    function StartReload(): Store {
      this.(loadGen := loadGen + 1, loadsInFlight := loadsInFlight + 1)
    }

    /** `refreshLive` up to its first await. */
    function StartLive(): Store {
      if status == Incompatible then StartReload() else this.(loadsInFlight := loadsInFlight + 1)
    }

    /** Whether the check's answer ends a load of generation `gen` at its first await. */
    predicate Ends(cfg: Config, gen: nat, answer: Compatibility) {
      gen != loadGen || answer == Mismatch || (answer == Unknown && cfg.check && status == Incompatible)
    }

    /** A load after its check answered: it goes on, or it ends, and a mismatch empties the store. */
    function Checked(cfg: Config, gen: nat, answer: Compatibility): Store {
      if !Ends(cfg, gen, answer) then this
      else if gen != loadGen || answer != Mismatch then this.(loadsInFlight := loadsInFlight - 1)
      else this.(status := Incompatible, stale := false, lists := EMPTY, rules := NO_RULES, loadsInFlight := loadsInFlight - 1)
    }

    predicate Shows(gen: nat) {
      gen == loadGen && busyCount <= 0
    }

    /** A load whose reads all answered: shown, set aside, or dropped. */
    function Arrived(full: bool, gen: nat, read: Snapshot): Store {
      var ended := this.(loadsInFlight := loadsInFlight - 1);
      if gen != loadGen then ended
      else if busyCount > 0 then ended.(reloadAfterWrites := true)
      else ended.(status := if full then Ready else status, stale := false,
                  lists := Lists(Read(read.groups, read.devices), []), rules := RuleList(Some(read.rules), []))
    }

    /** A load one of whose reads failed; `unauthorized` when the server refused the session. */
    function LoadFailed(gen: nat, unauthorized: bool): Store {
      var ended := this.(loadsInFlight := loadsInFlight - 1);
      if gen != loadGen then ended
      else ended.(status := if unauthorized then SignedOut else status, stale := true)
    }

    /** Whether `mutate` sends the write at all. */
    predicate Accepts(cfg: Config, group: Option<string>) {
      && status != Incompatible
      && (cfg.guard ==> CanControl(cfg))
      && (group.Some? ==> group.value !in busyGroups)
    }

    /** `mutate` up to its await, once it accepts the write. */
    function Begin(group: Option<string>, optimistic: bool): Store {
      this.(latest := latest + 1, loadGen := loadGen + 1,
            reloadAfterWrites := reloadAfterWrites || loadsInFlight > 0,
            busyCount := busyCount + 1,
            busyGroups := if group.Some? then busyGroups + [group.value] else busyGroups,
            lists := if optimistic then Lists(lists.base, lists.changes + [Optimistic(latest + 1)]) else lists)
    }

    /** The `finally` of `mutate`. */
    function Settle(group: Option<string>): Store {
      var s := this.(busyCount := if busyCount - 1 > 0 then busyCount - 1 else 0,
                     busyGroups := if group.Some? then Without(busyGroups, group.value) else busyGroups);
      if s.busyCount == 0 && s.reloadAfterWrites then s.(reloadAfterWrites := false).StartReload() else s
    }

    /** A write's result, applied by the write that owns what is shown; an older one waits for a reload. */
    function Committed(token: nat): Store {
      if latest != token then this.(reloadAfterWrites := true)
      else this.(loadGen := loadGen + 1, lists := Lists(lists.base, lists.changes + [Applied(token)]),
                 rules := RuleList(rules.base, rules.applied + [token]))
    }

    /** A failed write taken back by the write that owns what is shown; `lost` when no answer came back. */
    function RolledBack(cfg: Config, token: nat, previous: Lists, lost: bool): Store {
      if latest != token then this.(reloadAfterWrites := true)
      else if cfg.guard && lost then this.(lists := previous).StartReload()
      else this.(lists := previous)
    }
  }

  const INITIAL := Store(Loading, false, EMPTY, NO_RULES, 0, 0, 0, false, 0, [])

  ghost predicate Distinct(s: seq<string>) {
    forall i, j :: 0 <= i < j < |s| ==> s[i] != s[j]
  }

  function Without(groups: seq<string>, group: string): (r: seq<string>)
    ensures forall g :: g in r <==> g in groups && g != group
    ensures Distinct(groups) ==> Distinct(r)
  {
    if groups == [] then []
    else
      assert Distinct(groups) ==> Distinct(groups[1..]) && groups[0] !in groups[1..];
      var rest := Without(groups[1..], group);
      if groups[0] == group then rest else [groups[0]] + rest
  }

  /** The store's closure. Each method is one stretch of code between awaits; what a continuation
      remembers across the await (its generation, token and previous lists) is passed back in. */
  class HouseholdStore {
    const cfg: Config
    var status: Status
    var stale: bool
    var lists: Lists
    var rules: RuleList
    var loadGen: nat
    var latest: nat
    var busyCount: int
    var reloadAfterWrites: bool
    var loadsInFlight: int
    var busyGroupIds: seq<string>

    ghost function Contents(): Store
      reads this
    {
      Store(status, stale, lists, rules, loadGen, latest, busyCount, reloadAfterWrites, loadsInFlight, busyGroupIds)
    }

    constructor (cfg: Config)
      ensures this.cfg == cfg && Contents() == INITIAL
    {
      this.cfg := cfg;
      status, stale, lists, rules := Loading, false, EMPTY, NO_RULES;
      loadGen, latest, busyCount, loadsInFlight := 0, 0, 0, 0;
      reloadAfterWrites, busyGroupIds := false, [];
    }

    method Reload() returns (gen: nat)
      modifies this
      ensures Contents() == old(Contents()).StartReload() && gen == loadGen
    {
      loadGen := loadGen + 1;
      gen := loadGen;
      loadsInFlight := loadsInFlight + 1;
    }

    method RefreshLive() returns (full: bool, gen: nat)
      modifies this
      ensures Contents() == old(Contents()).StartLive() && gen == loadGen
      ensures full == (old(status) == Incompatible)
    {
      if status == Incompatible {
        full := true;
        gen := Reload();
        return;
      }
      full, gen := false, loadGen;
      loadsInFlight := loadsInFlight + 1;
    }

    /** `withheld`: whether this read must not be shown. */
    method Withheld(answer: Compatibility) returns (hold: bool)
      modifies this
      ensures hold == (answer == Mismatch || (answer == Unknown && cfg.check && old(status) == Incompatible))
      ensures Contents() == if answer != Mismatch then old(Contents())
                            else old(Contents()).(status := Incompatible, stale := false, lists := EMPTY, rules := NO_RULES)
    {
      if answer == Unknown { return cfg.check && status == Incompatible; }
      if answer == Compatible { return false; }
      status, stale := Incompatible, false;
      lists, rules := EMPTY, NO_RULES;
      hold := true;
    }

    method AfterCheck(gen: nat, answer: Compatibility) returns (goesOn: bool)
      modifies this
      ensures goesOn == !old(Contents()).Ends(cfg, gen, answer)
      ensures Contents() == old(Contents()).Checked(cfg, gen, answer)
    {
      goesOn := false;
      if gen == loadGen {
        var hold := Withheld(answer);
        goesOn := !hold;
      }
      if !goesOn { loadsInFlight := loadsInFlight - 1; }
    }

    method AfterReads(full: bool, gen: nat, read: Snapshot)
      modifies this
      ensures Contents() == old(Contents()).Arrived(full, gen, read)
    {
      if gen == loadGen {
        if busyCount > 0 {
          reloadAfterWrites := true;
        } else {
          if full { status := Ready; }
          lists := Lists(Read(read.groups, read.devices), []);
          rules := RuleList(Some(read.rules), []);
          stale := false;
        }
      }
      loadsInFlight := loadsInFlight - 1;
    }

    method AfterFailedRead(gen: nat, unauthorized: bool)
      modifies this
      ensures Contents() == old(Contents()).LoadFailed(gen, unauthorized)
    {
      if gen == loadGen {
        if unauthorized { status := SignedOut; }
        stale := true;
      }
      loadsInFlight := loadsInFlight - 1;
    }

    /** `mutate` up to its await. The continuation keeps the token and the lists as they were. */
    method Mutate(group: Option<string>, optimistic: bool) returns (sent: bool, token: nat, previous: Lists)
      modifies this
      ensures sent == old(Contents()).Accepts(cfg, group)
      ensures sent ==> Contents() == old(Contents()).Begin(group, optimistic) && token == latest && previous == old(lists)
      ensures !sent ==> Contents() == old(Contents())
    {
      sent, token, previous := false, 0, lists;
      if status == Incompatible { return; }
      if cfg.guard && !(status == Ready && !stale) { return; }
      if group.Some? && group.value in busyGroupIds { return; }
      latest := latest + 1;
      sent, token := true, latest;
      loadGen := loadGen + 1;
      if loadsInFlight > 0 { reloadAfterWrites := true; }
      busyCount := busyCount + 1;
      if group.Some? { busyGroupIds := busyGroupIds + [group.value]; }
      if optimistic { lists := Lists(previous.base, previous.changes + [Optimistic(token)]); }
    }

    method Finally(group: Option<string>)
      modifies this
      ensures Contents() == old(Contents()).Settle(group)
    {
      busyCount := if busyCount - 1 > 0 then busyCount - 1 else 0;
      if group.Some? { busyGroupIds := Without(busyGroupIds, group.value); }
      if busyCount == 0 && reloadAfterWrites {
        reloadAfterWrites := false;
        var _ := Reload();
      }
    }

    method AfterSuccess(token: nat, group: Option<string>)
      modifies this
      ensures Contents() == old(Contents()).Committed(token).Settle(group)
    {
      if latest != token {
        reloadAfterWrites := true;
      } else {
        loadGen := loadGen + 1;
        lists := Lists(lists.base, lists.changes + [Applied(token)]);
        rules := RuleList(rules.base, rules.applied + [token]);
      }
      Finally(group);
    }

    method AfterFailure(token: nat, group: Option<string>, previous: Lists, lost: bool)
      modifies this
      ensures Contents() == old(Contents()).RolledBack(cfg, token, previous, lost).Settle(group)
    {
      if latest == token {
        lists := previous;
        if cfg.guard && lost {
          var _ := Reload();
        }
      } else {
        reloadAfterWrites := true;
      }
      Finally(group);
    }
  }
}
