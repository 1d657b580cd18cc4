/**
  The two ends of the agents' control channel. The registry keeps its agents in memory and in one
  file that it replaces atomically; the agent does the same with its identity file. Whether a file
  could be replaced is an input of each operation, as are clocks, tokens and what the network did.
*/
module AgentChannel {
  import opened Wrappers
  import opened AgentProtocol

  class Registry {
    const config: Config
    var agents: map<string, Record>
    var updatedAt: Time
    var file: map<string, Record>
    var fileUpdatedAt: Time

    /** Memory and file agree between operations, and every record can be loaded again. */
    ghost predicate Valid()
      reads this
    {
      && agents == file && updatedAt == fileUpdatedAt
      && forall id :: id in agents ==> Consistent(agents[id])
    }

    constructor (config: Config)
      ensures Valid() && this.config == config && agents == map[]
    {
      this.config := config;
      agents, file := map[], map[];
      updatedAt, fileUpdatedAt := 0, 0;
    }

    function Lookup(id: string): (r: Option<Record>)
      reads this
    {
      if id in agents then Some(agents[id]) else None
    }

    /** persistLocked: the new file is complete before it takes the old one's name. */
    method Persist(saved: bool) returns (error: Option<Error>)
      modifies this`file, this`fileUpdatedAt
      ensures saved ==> error == None && file == agents && fileUpdatedAt == updatedAt
      ensures !saved ==> error == Some(NotSaved) && file == old(file) && fileUpdatedAt == old(fileUpdatedAt)
    {
      if !saved {
        return Some(NotSaved);
      }
      file, fileUpdatedAt := agents, updatedAt;
      return None;
    }

    /** Publish one record, or leave everything as it was. */
    method Publish(id: string, record: Record, now: Time, saved: bool) returns (error: Option<Error>)
      requires Valid() && Consistent(record)
      modifies this
      ensures Valid()
      ensures error == if saved then None else Some(NotSaved)
      ensures agents == if saved then old(agents)[id := record] else old(agents)
      ensures updatedAt == if saved then now else old(updatedAt)
    {
      var previous, previousUpdatedAt := agents, updatedAt;
      agents := agents[id := record];
      updatedAt := now;
      error := Persist(saved);
      if error.Some? {
        agents, updatedAt := previous, previousUpdatedAt;
      }
    }

    method Create(id: string, token: string, source: string, now: Time, saved: bool) returns (error: Option<Error>)
      requires Valid() && now > 0 && config.ttl > 0
      modifies this
      ensures Valid()
      ensures error == if !config.enabled then Some(Disabled)
                       else if id in old(agents) then Some(Invalid)
                       else if !saved then Some(NotSaved) else None
      ensures agents == if error.None? then old(agents)[id := Created(source, token, config, now)] else old(agents)
    {
      if !config.enabled {
        return Some(Disabled);
      }
      if id in agents {
        return Some(Invalid);
      }
      error := Publish(id, Record(source, true, 0, now + config.ttl, 0, token, "", "", 0, 0, 0, ""), now, saved);
    }

    method Reissue(id: string, token: string, now: Time, saved: bool) returns (error: Option<Error>)
      requires Valid() && now > 0 && config.ttl > 0
      modifies this
      ensures Valid()
      ensures error == if !config.enabled then Some(Disabled)
                       else if id !in old(agents) then Some(NotFound)
                       else if !saved then Some(NotSaved) else None
      ensures agents == if error.None? then old(agents)[id := Reissued(old(agents)[id], token, config, now)] else old(agents)
    {
      if !config.enabled {
        return Some(Disabled);
      }
      if id !in agents {
        return Some(NotFound);
      }
      error := Publish(id, Reissued(agents[id], token, config, now), now, saved);
    }

    method Revoke(id: string, now: Time, saved: bool) returns (error: Option<Error>)
      requires Valid() && now > 0
      modifies this
      ensures Valid()
      ensures error == if id !in old(agents) then Some(NotFound) else if !saved then Some(NotSaved) else None
      ensures agents == if error.None? then old(agents)[id := RevokedRecord(old(agents)[id], now)] else old(agents)
    {
      if id !in agents {
        return Some(NotFound);
      }
      error := Publish(id, RevokedRecord(agents[id], now), now, saved);
    }

    method Delete(id: string, now: Time, saved: bool) returns (error: Option<Error>)
      requires Valid()
      modifies this
      ensures Valid()
      ensures error == if !config.enabled then Some(Disabled)
                       else if id !in old(agents) then Some(NotFound)
                       else if old(agents)[id].enabled then Some(NotRevoked)
                       else if !saved then Some(NotSaved) else None
      ensures agents == if error.None? then old(agents) - {id} else old(agents)
    {
      if !config.enabled {
        return Some(Disabled);
      }
      if id !in agents {
        return Some(NotFound);
      }
      if agents[id].enabled || agents[id].revokedAt == 0 {
        return Some(NotRevoked);
      }
      var previous, previousUpdatedAt := agents, updatedAt;
      agents := agents - {id};
      updatedAt := now;
      error := Persist(saved);
      if error.Some? {
        agents, updatedAt := previous, previousUpdatedAt;
      }
    }

    method Enroll(offer: Offer, source: string, now: Time, saved: bool) returns (error: Option<Error>)
      requires Valid() && now > 0
      modifies this
      ensures Valid()
      ensures var refused := EnrollError(config, old(Lookup(offer.agent)), offer, source, now);
              error == if refused.Some? then refused else if !saved then Some(NotSaved) else None
      ensures error.None? ==> offer.agent in old(agents)
      ensures agents == if error.None? then old(agents)[offer.agent := Enrolled(old(agents)[offer.agent], offer, now)] else old(agents)
    {
      if !config.enabled {
        return Some(Disabled);
      }
      if !offer.wellFormed || offer.key == "" || offer.observationKey == "" || offer.key == offer.observationKey {
        return Some(InvalidEnrollment);
      }
      if offer.agent !in agents {
        return Some(NotFound);
      }
      var record := agents[offer.agent];
      if !record.enabled {
        return Some(Revoked);
      }
      if record.source != source {
        return Some(WrongSource);
      }
      if record.usedAt != 0 || record.token == "" {
        return Some(EnrollmentUsed);
      }
      if record.expiresAt <= now {
        return Some(EnrollmentExpired);
      }
      if record.token != offer.token {
        return Some(InvalidEnrollment);
      }
      record := record.(key := offer.key, observationKey := offer.observationKey, usedAt := now, token := "");
      record := record.(enrolledAt := now, lastSeenAt := now, health := "starting");
      error := Publish(offer.agent, record, now, saved);
    }

    method AcceptHeartbeat(request: Request, health: string, source: string, wellFormed: bool, now: Time, saved: bool)
      returns (error: Option<Error>)
      requires Valid() && now > 0
      modifies this
      ensures Valid()
      ensures var refused := RequestError(config, old(Lookup(request.agent)), Heartbeat, request, source, wellFormed, now);
              error == if refused.Some? then refused else if !saved then Some(NotSaved) else None
      ensures error.None? ==> request.agent in old(agents)
      ensures agents == if error.None?
                        then old(agents)[request.agent := AcceptedRecord(old(agents)[request.agent], Heartbeat, request, health, now)]
                        else old(agents)
    {
      if !config.enabled {
        return Some(Disabled);
      }
      if !wellFormed || request.timestamp == 0 || request.sequence == 0 {
        return Some(Invalid);
      }
      if request.timestamp < now - config.maxSkew || request.timestamp > now + config.maxSkew {
        return Some(Invalid);
      }
      if request.agent !in agents {
        return Some(NotFound);
      }
      var record := agents[request.agent];
      if !record.enabled {
        return Some(Revoked);
      }
      if record.source != source {
        return Some(WrongSource);
      }
      if record.key == "" || record.enrolledAt == 0 {
        return Some(NotEnrolled);
      }
      if request.sequence <= record.lastSequence {
        return Some(Replay);
      }
      if request.key != record.key || !request.kind.Heartbeat? {
        return Some(Invalid);
      }
      record := record.(lastSeenAt := now, lastSequence := request.sequence, health := health);
      error := Publish(request.agent, record, now, saved);
    }

    method AcceptControlRequest(request: Request, source: string, wellFormed: bool, now: Time, saved: bool)
      returns (error: Option<Error>)
      requires Valid() && now > 0
      modifies this
      ensures Valid()
      ensures var refused := RequestError(config, old(Lookup(request.agent)), Control, request, source, wellFormed, now);
              error == if refused.Some? then refused else if !saved then Some(NotSaved) else None
      ensures error.None? ==> request.agent in old(agents)
      ensures agents == if error.None?
                        then old(agents)[request.agent := AcceptedRecord(old(agents)[request.agent], Control, request, "", now)]
                        else old(agents)
    {
      if !config.enabled {
        return Some(Disabled);
      }
      if !wellFormed || request.timestamp == 0 || request.sequence == 0 {
        return Some(Invalid);
      }
      if request.timestamp < now - config.maxSkew || request.timestamp > now + config.maxSkew {
        return Some(Invalid);
      }
      if request.agent !in agents {
        return Some(NotFound);
      }
      var record := agents[request.agent];
      if !record.enabled || record.revokedAt != 0 {
        return Some(Revoked);
      }
      if record.source != source {
        return Some(WrongSource);
      }
      if record.key == "" || record.enrolledAt == 0 {
        return Some(NotEnrolled);
      }
      if request.sequence <= record.lastSequence {
        return Some(Replay);
      }
      if request.key != record.key || !request.kind.Control? {
        return Some(Invalid);
      }
      record := record.(lastSeenAt := now, lastSequence := request.sequence);
      error := Publish(request.agent, record, now, saved);
    }
  }

  /** What the environment did with one exchange: whether the request arrived, whether the registry
      could save, whether the answer came back, and whether the agent could save before sending. */
  datatype Exchange = Exchange(arrives: bool, registrySaves: bool, answered: bool, agentSaves: bool)

  const PERFECT := Exchange(true, true, true, true)

  /** One attempt to enrol: its clocks, its two exchanges, and whether the outcome was saved. */
  datatype Attempt = Attempt(now: Time, clock: Time, offering: Exchange, beating: Exchange, recorded: bool) {
    predicate Undisturbed(cfg: Config) {
      && offering == PERFECT && beating == PERFECT && recorded
      && now != 0 && clock - cfg.maxSkew <= now <= clock + cfg.maxSkew
    }
  }

  class Client {
    const agent: string
    const token: string
    const source: string
    const observationKey: Key
    var identity: Identity
    var file: Identity

    /** The file never runs ahead of memory, and both hold one key. */
    ghost predicate Valid()
      reads this
    {
      && identity.key == file.key && identity.key != "" && identity.key != observationKey && observationKey != ""
      && file.next <= identity.next < SEQUENCES
    }

    method Persist(saved: bool)
      modifies this`file
      ensures file == if saved then identity else old(file)
    {
      if saved {
        file := identity;
      }
    }

    /** A restart reads the identity file again. */
    method Restart()
      requires Valid()
      modifies this`identity
      ensures Valid() && identity == file
    {
      identity := file;
    }

    /** postSignedJSONBytes up to the point where the request leaves the agent. */
    method Sign(kind: Kind, body: string, now: Time, saved: bool) returns (request: Option<Request>)
      requires Valid()
      modifies this`identity, this`file
      ensures identity == old(identity).(next := (old(identity).next + 1) % SEQUENCES)
      ensures file == if saved then identity else old(file)
      ensures saved ==> request == Some(Request(identity.key, kind, agent, now, identity.next, body))
      ensures !saved ==> request == None
      ensures old(identity).next + 1 < SEQUENCES ==> Valid() && identity.next == old(identity).next + 1
    {
      identity := identity.(next := (identity.next + 1) % SEQUENCES);
      Persist(saved);
      if !saved {
        return None;
      }
      return Some(Request(identity.key, kind, agent, now, identity.next, body));
    }

    /** SendHeartbeat against a registry whose clock is `clock`. */
    method SendHeartbeat(registry: Registry, health: string, now: Time, clock: Time, net: Exchange) returns (ok: bool)
      requires Valid() && registry.Valid() && clock > 0 && identity.next + 1 < SEQUENCES
      modifies this`identity, this`file, registry
      ensures Valid() && registry.Valid()
      ensures identity == old(identity).(next := old(identity).next + 1)
      ensures file == if net.agentSaves then identity else old(file)
      ensures var request := Request(identity.key, Heartbeat, agent, now, identity.next, "heartbeat");
              var accepted := net.agentSaves && net.arrives && net.registrySaves
                && RequestError(registry.config, old(registry.Lookup(agent)), Heartbeat, request, source, true, clock).None?;
              && ok == (accepted && net.answered)
              && (accepted ==> agent in old(registry.agents))
              && registry.agents ==
                 (if accepted then old(registry.agents)[agent := AcceptedRecord(old(registry.agents)[agent], Heartbeat, request, health, clock)]
                  else old(registry.agents))
    {
      var request := Sign(Heartbeat, "heartbeat", now, net.agentSaves);
      if request.None? || !net.arrives {
        return false;
      }
      var error := registry.AcceptHeartbeat(request.value, health, source, true, clock, net.registrySaves);
      return error.None? && net.answered;
    }

    /** The registry still offers this agent its token. */
    ghost predicate Offered(registry: Registry)
      reads this, registry
    {
      && registry.config.enabled && agent in registry.agents
      && var r := registry.agents[agent];
         r.enabled && r.source == source && r.usedAt == 0 && r.token == token && r.lastSequence == 0
    }

    /** The registry took this agent's key under its token, whether or not the agent knows. */
    ghost predicate Taken(registry: Registry)
      reads this, registry
    {
      && registry.config.enabled && agent in registry.agents
      && var r := registry.agents[agent];
         r.enabled && r.source == source && r.key == identity.key && r.lastSequence <= file.next
    }

    /** The first half of EnsureEnrolled: whether the registry took the keys and the agent heard so. */
    method OfferKeys(registry: Registry, attempt: Attempt) returns (accepted: bool)
      requires Valid() && registry.Valid() && attempt.clock > 0
      modifies registry
      ensures registry.Valid()
      ensures accepted ==> agent in registry.agents && registry.agents[agent].key == identity.key && registry.agents[agent].enrolledAt != 0
      ensures old(Taken(registry)) ==> Taken(registry) && !accepted
      ensures old(Offered(registry)) && token != "" ==>
                Taken(registry) || (Offered(registry) && registry.agents[agent] == old(registry.agents[agent]))
      ensures old(Offered(registry)) && token != "" && attempt.offering == PERFECT && attempt.clock < old(registry.agents[agent]).expiresAt ==> accepted
    {
      if !attempt.offering.arrives {
        return false;
      }
      var offer := Offer(agent, token, identity.key, observationKey, true);
      var error := registry.Enroll(offer, source, attempt.clock, attempt.offering.registrySaves);
      return error.None? && attempt.offering.answered;
    }

    /** An agent that does not know it is enrolled offers its keys and, when refused, tries to
        authenticate a heartbeat with them. */
    method EnsureEnrolled(registry: Registry, attempt: Attempt) returns (ok: bool)
      requires Valid() && registry.Valid() && attempt.clock > 0 && identity.next + 1 < SEQUENCES
      modifies this`identity, this`file, registry
      ensures Valid() && registry.Valid() && identity.key == old(identity).key
      ensures old(identity).next <= identity.next <= old(identity).next + 1
      ensures old(identity).enrolled ==> ok && identity == old(identity) && file == old(file) && registry.agents == old(registry.agents)
      // no false success: the registry holds this agent's key
      ensures ok && !old(identity).enrolled ==>
                && file.enrolled && agent in registry.agents
                && registry.agents[agent].key == identity.key && registry.agents[agent].enrolledAt != 0
      // whatever is lost, the token stays usable or has been used by this agent
      ensures old(Taken(registry)) ==> Taken(registry)
      ensures old(Offered(registry)) && token != "" ==>
                Taken(registry) || (Offered(registry) && registry.agents[agent] == old(registry.agents[agent]))
      // and nothing but losses and clocks keeps the agent from succeeding
      ensures (!old(identity).enrolled && token != "" && attempt.Undisturbed(registry.config)
               && (old(Taken(registry)) || (old(Offered(registry)) && attempt.clock < old(registry.agents[agent]).expiresAt))) ==> ok
      ensures file.enrolled ==> ok || old(file).enrolled
    {
      if identity.enrolled {
        return true;
      }
      if token == "" {
        return false;
      }
      var accepted := OfferKeys(registry, attempt);
      if accepted {
        identity := identity.(enrolled := true);
        Persist(attempt.recorded);
        return attempt.recorded;
      }
      ok := SendHeartbeat(registry, "starting", attempt.now, attempt.clock, attempt.beating);
      if ok {
        identity := identity.(enrolled := true);
        Persist(attempt.recorded);
        return attempt.recorded;
      }
    }

    /** However many attempts to enrol lose requests, answers or saves and end in a restart, one
        undisturbed attempt enrols the identity that was saved before the first of them. */
    method EnrollAfterCrashes(registry: Registry, attempts: seq<Attempt>, last: Attempt) returns (ok: bool)
      requires Valid() && registry.Valid() && Offered(registry) && token != "" && !identity.enrolled && identity == file
      requires identity.next + |attempts| + 1 < SEQUENCES
      requires last.clock > 0 && forall i :: 0 <= i < |attempts| ==> attempts[i].clock > 0
      requires last.Undisturbed(registry.config) && last.clock < registry.agents[agent].expiresAt
      modifies this`identity, this`file, registry
      ensures ok && file.enrolled && file.key == old(file).key
      ensures Valid() && registry.Valid() && Taken(registry)
    {
      ghost var record := registry.agents[agent];
      for i := 0 to |attempts|
        invariant Valid() && registry.Valid() && identity == file && identity.key == old(file).key
        invariant identity.next <= old(identity).next + i
        invariant identity.enrolled ==> Taken(registry)
        invariant Taken(registry) || (Offered(registry) && registry.agents[agent] == record)
      {
        var _ := EnsureEnrolled(registry, attempts[i]);
        Restart();
      }
      ok := EnsureEnrolled(registry, last);
    }
  }
}
