/** What each admin command changes in the policy, and when it refuses. */
module Edits {
  import opened Prelude
  import opened Terms

  /** Why an admin command changes nothing.  `Refused` carries the library's own error. */
  datatype AdminError =
    | NoPolicy
    | Refused(error: Error)
    | AlreadyThere
    | NotThere
    | WasRemoved(node: NodeId)
    | NoMatchers
    | BanNamesIssuer
    | UntrustedIssuer
    | OwnNode
    | LeavesNoDirectory
    | ChangedMeanwhile
    | PrintsOnly

  /** A change to one service: an absent field keeps the present value. */
  datatype ServiceEdit = ServiceEdit(
    description: Option<string>, allow: Option<seq<RoleName>>, hosts: Option<seq<NodeId>>)
  {
    function Apply(service: Service): Service {
      Service(
        if description.Some? then description.value else service.description,
        if allow.Some? then allow.value else service.allow,
        if hosts.Some? then hosts.value else service.hosts)
    }
  }

  datatype Edit =
    | Init(issuer: Issuer, config: IssuerConfig)
    | AddService(name: ServiceName, edit: ServiceEdit)
    | SetService(name: ServiceName, edit: ServiceEdit)
    | RemoveService(name: ServiceName)
    | SetRole(role: RoleName, matchers: seq<Matcher>)
    | RemoveRole(role: RoleName)
    | SetIssuer(issuer: Issuer, config: IssuerConfig)
    | RemoveIssuer(issuer: Issuer)
    | AddDirectory(node: NodeId)
    | RemoveDirectory(node: NodeId)
    | BanPerson(person: Person)
    | BanNode(node: NodeId)
    | LiftPerson(person: Person)
    | LiftNode(node: NodeId)
    | ChangeSettings(beatSecs: Option<nat>, freshSecs: Option<nat>)

  /** `nodes` without `node`, in order. */
  function Retain(nodes: seq<NodeId>, node: NodeId): (r: seq<NodeId>)
    ensures node !in r && forall n :: n in r <==> n in nodes && n != node
    ensures node !in nodes ==> r == nodes
  {
    if nodes == [] then []
    else
      var init, last := nodes[..|nodes| - 1], nodes[|nodes| - 1];
      assert nodes == init + [last];
      if last == node then Retain(init, node) else Retain(init, node) + [last]
  }

  /** The first proposed host that was removed. */
  function RemovedHost(p: Policy, hosts: seq<NodeId>): (r: Option<NodeId>)
    ensures r.Some? ==> r.value in hosts && r.value in p.bans
    ensures r.None? <==> forall h :: h in hosts ==> h !in p.bans
  {
    First(hosts, (h: NodeId) => h in p.bans)
  }

  function CheckHosts(p: Policy, hosts: Option<seq<NodeId>>): Result<(), AdminError> {
    var removed := if hosts.None? then None else RemovedHost(p, hosts.value);
    if removed.Some? then Err(WasRemoved(removed.value)) else Ok(())
  }

  /** Every service with `node` dropped from its hosts. */
  function Unhosted(services: map<ServiceName, Service>, node: NodeId): map<ServiceName, Service> {
    map s | s in services :: services[s].(hosts := Retain(services[s].hosts, node))
  }

  /** The policy an edit makes of `p`. */
  function Changed(edit: Edit, p: Policy): Result<Policy, AdminError> {
    match edit
    case Init(issuer, config) => Ok(p.(issuers := p.issuers[issuer := config]))
    case AddService(name, change) =>
      var _ :- Require(name !in p.services, AlreadyThere);
      var _ :- CheckHosts(p, change.hosts);
      Ok(p.(services := p.services[name := change.Apply(Service("", [], []))]))
    case SetService(name, change) =>
      var _ :- CheckHosts(p, change.hosts);
      if name !in p.services then Err(NotThere)
      else Ok(p.(services := p.services[name := change.Apply(p.services[name])]))
    case RemoveService(name) =>
      if name in p.services then Ok(p.(services := p.services - {name})) else Err(NotThere)
    case SetRole(role, matchers) => Ok(p.(roles := p.roles[role := matchers]))
    case RemoveRole(role) =>
      if role in p.roles then Ok(p.(roles := p.roles - {role})) else Err(NotThere)
    case SetIssuer(issuer, config) => Ok(p.(issuers := p.issuers[issuer := config]))
    case RemoveIssuer(issuer) =>
      if issuer !in p.issuers then Err(NotThere)
      else if exists b :: b in p.personBans && b.issuer == issuer then Err(BanNamesIssuer)
      else Ok(p.(issuers := p.issuers - {issuer}))
    case AddDirectory(node) =>
      var _ :- Require(node !in p.bans, WasRemoved(node));
      var _ :- Require(node !in p.directories, AlreadyThere);
      Ok(p.(directories := p.directories + [node]))
    case RemoveDirectory(node) =>
      if node in p.directories then Ok(p.(directories := Retain(p.directories, node))) else Err(NotThere)
    case BanPerson(person) =>
      if person in p.personBans then Err(AlreadyThere) else Ok(p.(personBans := p.personBans + {person}))
    case BanNode(node) =>
      if node in p.bans then Err(AlreadyThere)
      else Ok(p.(bans := p.bans + {node}, services := Unhosted(p.services, node),
                 directories := Retain(p.directories, node)))
    case LiftPerson(person) =>
      if person in p.personBans then Ok(p.(personBans := p.personBans - {person})) else Err(NotThere)
    case LiftNode(node) =>
      if node in p.bans then Ok(p.(bans := p.bans - {node})) else Err(NotThere)
    case ChangeSettings(beat, life) =>
      Ok(p.(settings := Settings(if beat.Some? then beat.value else p.settings.beatSecs,
                                 if life.Some? then life.value else p.settings.freshSecs)))
  }

  /** `r` and `after` are what `edit` makes of `before`; a refused draft is thrown away. */
  predicate Does(edit: Edit, before: Policy, r: Result<(), AdminError>, after: Policy) {
    match Changed(edit, before)
    case Ok(p) => r == Ok(()) && after == p
    case Err(e) => r == Err(e)
  }

  /** The policy being edited: the commands change its fields in place. */
  class Draft {
    const fabric: NodeId
    var version: nat
    var issued: int
    var notAfter: int
    var directories: seq<NodeId>
    var roles: map<RoleName, seq<Matcher>>
    var services: map<ServiceName, Service>
    var bans: set<NodeId>
    var personBans: set<Person>
    var issuers: map<Issuer, IssuerConfig>
    var settings: Settings

    function Value(): Policy
      reads this
    {
      Policy(fabric, version, issued, notAfter, directories, roles, services, bans, personBans, issuers, settings)
    }

    constructor (p: Policy)
      ensures Value() == p
    {
      fabric, version, issued, notAfter := p.fabric, p.version, p.issued, p.notAfter;
      directories, roles, services := p.directories, p.roles, p.services;
      bans, personBans, issuers, settings := p.bans, p.personBans, p.issuers, p.settings;
    }

    method CheckNoneRemoved(hosts: Option<seq<NodeId>>) returns (r: Result<(), AdminError>)
      ensures r == CheckHosts(Value(), hosts)
    {
      if hosts.None? {
        return Ok(());
      }
      for i := 0 to |hosts.value|
        invariant RemovedHost(Value(), hosts.value) == RemovedHost(Value(), hosts.value[i..])
      {
        assert hosts.value[i..][1..] == hosts.value[i + 1..];
        if hosts.value[i] in bans {
          return Err(WasRemoved(hosts.value[i]));
        }
      }
      return Ok(());
    }

    method Add(name: ServiceName, edit: ServiceEdit) returns (r: Result<(), AdminError>)
      modifies this
      ensures Does(AddService(name, edit), old(Value()), r, Value())
    {
      if name in services {
        return Err(AlreadyThere);
      }
      r := CheckNoneRemoved(edit.hosts);
      if r.Ok? {
        services := services[name := edit.Apply(Service("", [], []))];
      }
    }

    method Set(name: ServiceName, edit: ServiceEdit) returns (r: Result<(), AdminError>)
      modifies this
      ensures Does(SetService(name, edit), old(Value()), r, Value())
    {
      r := CheckNoneRemoved(edit.hosts);
      if r.Err? {
        return;
      }
      if name !in services {
        return Err(NotThere);
      }
      services := services[name := edit.Apply(services[name])];
    }

    /** Walks the services, dropping `node` from each host list. */
    method DropHost(node: NodeId)
      modifies this`services
      ensures services == Unhosted(old(services), node)
    {
      ghost var before := services;
      var names := services.Keys;
      while names != {}
        invariant services.Keys == before.Keys && names <= before.Keys
        invariant forall s :: s in names ==> services[s] == before[s]
        invariant forall s :: s in before.Keys - names ==> services[s] == Unhosted(before, node)[s]
      {
        var name :| name in names;
        services := services[name := services[name].(hosts := Retain(services[name].hosts, node))];
        names := names - {name};
      }
    }

    method Ban(node: NodeId) returns (r: Result<(), AdminError>)
      modifies this
      ensures Does(BanNode(node), old(Value()), r, Value())
    {
      if node in bans {
        return Err(AlreadyThere);
      }
      bans := bans + {node};
      DropHost(node);
      directories := Retain(directories, node);
      return Ok(());
    }

    /** Refused after the fact while a person ban names the issuer; a refused draft is never signed. */
    method Distrust(issuer: Issuer) returns (r: Result<(), AdminError>)
      modifies this
      ensures Does(RemoveIssuer(issuer), old(Value()), r, Value())
    {
      if issuer !in issuers {
        return Err(NotThere);
      }
      issuers := issuers - {issuer};
      r := if exists b | b in personBans :: b.issuer == issuer then Err(BanNamesIssuer) else Ok(());
    }

    method List(node: NodeId) returns (r: Result<(), AdminError>)
      modifies this
      ensures Does(AddDirectory(node), old(Value()), r, Value())
    {
      if node in bans {
        return Err(WasRemoved(node));
      }
      if node in directories {
        return Err(AlreadyThere);
      }
      directories := directories + [node];
      r := Ok(());
    }

    method Unlist(node: NodeId) returns (r: Result<(), AdminError>)
      modifies this
      ensures Does(RemoveDirectory(node), old(Value()), r, Value())
    {
      var before := |directories|;
      RetainShortens(directories, node);
      directories := Retain(directories, node);
      r := if |directories| == before then Err(NotThere) else Ok(());
    }

    method Apply(edit: Edit) returns (r: Result<(), AdminError>)
      modifies this
      ensures Does(edit, old(Value()), r, Value())
    {
      match edit
      case AddService(name, change) => r := Add(name, change);
      case SetService(name, change) => r := Set(name, change);
      case BanNode(node) => r := Ban(node);
      case Init(issuer, config) => issuers := issuers[issuer := config]; r := Ok(());
      case SetIssuer(issuer, config) => issuers := issuers[issuer := config]; r := Ok(());
      case SetRole(role, matchers) => roles := roles[role := matchers]; r := Ok(());
      case ChangeSettings(beat, life) =>
        if beat.Some? {
          settings := settings.(beatSecs := beat.value);
        }
        if life.Some? {
          settings := settings.(freshSecs := life.value);
        }
        r := Ok(());
      case RemoveIssuer(issuer) => r := Distrust(issuer);
      case AddDirectory(node) => r := List(node);
      case RemoveDirectory(node) => r := Unlist(node);
      case RemoveService(name) =>
        r := if name in services then Ok(()) else Err(NotThere);
        services := services - {name};
      case RemoveRole(role) =>
        r := if role in roles then Ok(()) else Err(NotThere);
        roles := roles - {role};
      case BanPerson(person) =>
        r := if person in personBans then Err(AlreadyThere) else Ok(());
        personBans := personBans + {person};
      case LiftPerson(person) =>
        r := if person in personBans then Ok(()) else Err(NotThere);
        personBans := personBans - {person};
      case LiftNode(node) =>
        r := if node in bans then Ok(()) else Err(NotThere);
        bans := bans - {node};
    }

    /** The next version's number, signing time and expiry. */
    method Stamp(now: int, until: int)
      modifies this`version, this`issued, this`notAfter
      ensures Value() == Stamped(old(Value()), now, until)
    {
      version := version + 1;
      issued := now;
      notAfter := until;
    }
  }

  function Stamped(p: Policy, now: int, until: int): Policy {
    p.(version := p.version + 1, issued := now, notAfter := until)
  }

  /** The length tells whether anything was dropped, which is how a missing directory is noticed. */
  lemma {:induction false} RetainShortens(nodes: seq<NodeId>, node: NodeId)
    ensures |Retain(nodes, node)| <= |nodes|
    ensures |Retain(nodes, node)| == |nodes| <==> node !in nodes
  {
    if nodes != [] {
      var init, last := nodes[..|nodes| - 1], nodes[|nodes| - 1];
      assert nodes == init + [last];
      RetainShortens(init, node);
    }
  }
}
