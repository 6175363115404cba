/**
 Ref commands of any number of pushes, interleaved one by one: every accepted command
 moves its ref from the very value its client named, so a ref's history is one chain
 and no update is lost.
 */
module PushHistory {
  import opened Options
  import opened Push

  /** A command with what its own push resolved and reported missing, and its workspace. */
  datatype Event = Event(command: Command, table: map<Sha, Oid>, missing: Option<Sha>, segment: string)

  /** The stored ref a command is about. */
  function Subject(e: Event): RefName { StoredName(e.command.name, e.segment) }

  /** A ref's step, `None` standing for no ref. */
  datatype Move = Move(from: Option<Oid>, to: Option<Oid>)

  function Meaning(table: map<Sha, Oid>, s: Sha): Option<Oid> {
    if s != NULL && s in table then Some(table[s]) else None
  }

  /** The step the client asked for. */
  function Asked(e: Event): Move {
    Move(Meaning(e.table, e.command.before), Meaning(e.table, e.command.after))
  }

  predicate Resolvable(table: map<Sha, Oid>, s: Sha) { s == NULL || s in table }

  function Result(refs: Refs, e: Event): (Refs, Outcome) { Execute(refs, e.table, e.missing, e.segment, e.command) }

  predicate Accepts(refs: Refs, e: Event) { Result(refs, e).1.Accepted? }

  /** A command is accepted exactly if its push was complete, its name valid, its ids known, it
      is not a deletion of nothing, and the ref still stands where the client saw it. */
  lemma AcceptedIff(refs: Refs, e: Event)
    ensures Accepts(refs, e) <==>
      && e.missing.None? && ValidName(Subject(e)) && Resolvable(e.table, e.command.before) && Resolvable(e.table, e.command.after)
      && !(e.command.before == NULL && e.command.after == NULL)
      && Current(refs, Subject(e)) == Asked(e).from
    ensures forall name ::
      Current(Result(refs, e).0, name) == if Accepts(refs, e) && name == Subject(e) then Asked(e).to else Current(refs, name)
  {
    hide ValidName, StoredName;
    if e.missing.None? && e.command.after != NULL && e.command.before != NULL && Resolvable(e.table, e.command.after) {
      assert e.command.before in e.table ==> Asked(e).from == Some(e.table[e.command.before]);
    }
  }

  function Final(refs: Refs, events: seq<Event>): Refs
    decreases |events|
  {
    if events == [] then refs else Final(Result(refs, events[0]).0, events[1..])
  }

  /** The accepted commands on one ref, in order, as their clients meant them. */
  function History(refs: Refs, events: seq<Event>, name: RefName): seq<Move>
    decreases |events|
  {
    if events == [] then []
    else
      (if Subject(events[0]) == name && Accepts(refs, events[0]) then [Asked(events[0])] else [])
      + History(Result(refs, events[0]).0, events[1..], name)
  }

  predicate Chained(start: Option<Oid>, moves: seq<Move>, end: Option<Oid>)
    decreases |moves|
  {
    if moves == [] then start == end else moves[0].from == start && Chained(moves[0].to, moves[1..], end)
  }

  /** Each accepted update starts from the value the one before it left. */
  lemma {:induction false} HistoryIsAChain(refs: Refs, events: seq<Event>, name: RefName)
    ensures Chained(Current(refs, name), History(refs, events, name), Current(Final(refs, events), name))
    decreases |events|
  {
    hide Current, Result, Accepts, Asked, Subject;
    if events != [] {
      var e := events[0];
      AcceptedIff(refs, e);
      HistoryIsAChain(Result(refs, e).0, events[1..], name);
      var rest := History(Result(refs, e).0, events[1..], name);
      if Subject(e) == name && Accepts(refs, e) {
        assert History(refs, events, name) == [Asked(e)] + rest;
        assert ([Asked(e)] + rest)[1..] == rest;
      } else {
        assert History(refs, events, name) == [] + rest == rest;
      }
    }
  }
}
