/** The promise lifecycle: every successful transition advances version and update sequence. */
module Promises {
  import opened Results
  import opened Domain

  /** Checked next version. */
  function NextVersion(version: int): Result<int, DomainError> {
    if version >= U64_MAX then Err(VersionOverflow) else Ok(version + 1)
  }

  /** The promise after one successful transition to `state`. */
  function Advanced(p: Promise, state: PromiseState, sequence: int): Result<Promise, DomainError> {
    var next :- NextVersion(p.version);
    Ok(p.(state := state, version := next, updatedSequence := sequence))
  }

  function Committing(p: Promise, expectedVersion: int, now: int, sequence: int): Result<Promise, DomainError> {
    if expectedVersion != p.version then Err(VersionConflict)
    else if p.state.Held? && p.state.expiresAt <= now then Err(HoldExpired)
    else if p.state.Held? then Advanced(p, Committed, sequence)
    else Err(InvalidPromiseState)
  }

  function Releasing(p: Promise, expectedVersion: int, now: int, sequence: int): Result<Promise, DomainError> {
    if expectedVersion != p.version then Err(VersionConflict)
    else if p.state.Held? && p.state.expiresAt <= now then Err(HoldExpired)
    else if p.Active() then Advanced(p, Released, sequence)
    else Err(InvalidPromiseState)
  }

  function Replacing(p: Promise, expectedVersion: int, newBundle: Bundle, newState: ReplacementState, now: int,
                     sequence: int): Result<Promise, DomainError>
  {
    if expectedVersion != p.version then Err(VersionConflict)
    else if p.state.Held? && p.state.expiresAt <= now then Err(HoldExpired)
    else if !p.Active() then Err(InvalidPromiseState)
    else if newState.ReplacedHeld? && newState.deadline <= now then Err(InvalidExpiration)
    else
      var state := if newState.ReplacedHeld? then Held(newState.deadline) else Committed;
      var next :- Advanced(p, state, sequence);
      Ok(next.(bundle := newBundle))
  }

  function Expiring(p: Promise, now: int, sequence: int): Result<Promise, DomainError> {
    if p.state.Held? && p.state.expiresAt > now then Err(HoldNotExpired)
    else if p.state.Held? then Advanced(p, Expired, sequence)
    else Err(InvalidPromiseState)
  }

  /** A hold before its deadline. */
  predicate LiveHold(p: Promise, now: int) {
    p.state.Held? && now < p.state.expiresAt
  }

  /** A hold whose deadline has been reached, whether or not that was processed. */
  predicate DeadHold(p: Promise, now: int) {
    p.state.Expired? || (p.state.Held? && p.state.expiresAt <= now)
  }

  /** A promise borrowed for update: loaded from its map entry and stored back as `Value()`. */
  class PromiseCell {
    const id: PromiseId
    var state: PromiseState
    var bundle: Bundle
    var version: int
    const createdSequence: int
    var updatedSequence: int

    function Value(): Promise
      reads this
    {
      Promise(id, state, bundle, version, createdSequence, updatedSequence)
    }

    constructor (p: Promise)
      ensures Value() == p
    {
      id := p.id;
      state := p.state;
      bundle := p.bundle;
      version := p.version;
      createdSequence := p.createdSequence;
      updatedSequence := p.updatedSequence;
    }

    method Commit(expectedVersion: int, now: int, sequence: int) returns (r: Result<int, DomainError>)
      modifies this
      ensures var spec := Committing(old(Value()), expectedVersion, now, sequence);
              if spec.Ok? then r == Ok(spec.value.version) && Value() == spec.value
              else r == Err(spec.error) && Value() == old(Value())
      ensures r.Ok? <==> LiveHold(old(Value()), now) && old(version) == expectedVersion < U64_MAX
      ensures r.Ok? ==>
                && r.value == expectedVersion + 1
                && Value() == Promise(id, Committed, old(bundle), expectedVersion + 1, createdSequence, sequence)
    {
      if expectedVersion != version {
        return Err(VersionConflict);
      }
      match state {
        case Held(expiresAt) =>
          if expiresAt <= now {
            return Err(HoldExpired);
          }
          var nextVersion :- NextVersion(version);
          version := nextVersion;
          updatedSequence := sequence;
          state := Committed;
          r := Ok(nextVersion);
        case _ =>
          r := Err(InvalidPromiseState);
      }
    }

    method Release(expectedVersion: int, now: int, sequence: int) returns (r: Result<int, DomainError>)
      modifies this
      ensures var spec := Releasing(old(Value()), expectedVersion, now, sequence);
              if spec.Ok? then r == Ok(spec.value.version) && Value() == spec.value
              else r == Err(spec.error) && Value() == old(Value())
      ensures r.Ok? <==>
              && (LiveHold(old(Value()), now) || old(state).Committed?) && old(version) == expectedVersion < U64_MAX
      ensures r.Ok? ==>
                && r.value == expectedVersion + 1
                && Value() == Promise(id, Released, old(bundle), expectedVersion + 1, createdSequence, sequence)
    {
      if expectedVersion != version {
        return Err(VersionConflict);
      }
      if state.Held? && state.expiresAt <= now {
        return Err(HoldExpired);
      }
      if state.Held? || state.Committed? {
        var nextVersion :- NextVersion(version);
        version := nextVersion;
        updatedSequence := sequence;
        state := Released;
        return Ok(nextVersion);
      }
      r := Err(InvalidPromiseState);
    }

    method Replace(expectedVersion: int, newBundle: Bundle, newState: ReplacementState, now: int, sequence: int)
      returns (r: Result<int, DomainError>)
      modifies this
      ensures var spec := Replacing(old(Value()), expectedVersion, newBundle, newState, now, sequence);
              if spec.Ok? then r == Ok(spec.value.version) && Value() == spec.value
              else r == Err(spec.error) && Value() == old(Value())
      ensures r.Ok? <==>
              && (LiveHold(old(Value()), now) || old(state).Committed?) && old(version) == expectedVersion < U64_MAX
              && (newState.ReplacedHeld? ==> now < newState.deadline)
      ensures r.Ok? ==>
                && r.value == expectedVersion + 1
                && Value()
                   == Promise(id, if newState.ReplacedHeld? then Held(newState.deadline) else Committed, newBundle,
                              expectedVersion + 1, createdSequence, sequence)
    {
      if expectedVersion != version {
        return Err(VersionConflict);
      }
      match state {
        case Held(expiresAt) =>
          if expiresAt <= now {
            return Err(HoldExpired);
          }
        case Committed =>
        case _ =>
          return Err(InvalidPromiseState);
      }
      if newState.ReplacedHeld? && newState.deadline <= now {
        return Err(InvalidExpiration);
      }
      var nextVersion :- NextVersion(version);
      bundle := newBundle;
      state := if newState.ReplacedHeld? then Held(newState.deadline) else Committed;
      version := nextVersion;
      updatedSequence := sequence;
      r := Ok(nextVersion);
    }

    method Expire(now: int, sequence: int) returns (r: Result<(), DomainError>)
      modifies this
      ensures var spec := Expiring(old(Value()), now, sequence);
              if spec.Ok? then r == Ok(()) && Value() == spec.value
              else r == Err(spec.error) && Value() == old(Value())
      ensures r.Ok? <==> old(state).Held? && old(state).expiresAt <= now && old(version) < U64_MAX
      ensures r.Ok? ==> Value() == Promise(id, Expired, old(bundle), old(version) + 1, createdSequence, sequence)
    {
      match state {
        case Held(expiresAt) =>
          if expiresAt > now {
            return Err(HoldNotExpired);
          }
          var nextVersion :- NextVersion(version);
          version := nextVersion;
          updatedSequence := sequence;
          state := Expired;
          r := Ok(());
        case _ =>
          r := Err(InvalidPromiseState);
      }
    }
  }
}
