/** The uninstall task and the service as objects acting on the host. */
module ServiceObject {
  import opened Wrappers
  import opened PackageNames
  import opened Schema
  import opened Install
  import opened Tasks
  import opened Service

  const REMOVAL_STEPS: seq<RemovalStep> := [RemovalStarting, Removing, RemovalCompleted]

  class UninstallTask {
    const env: Env
    const host: Host

    constructor (env: Env, host: Host)
      ensures this.env == env && this.host == host
    {
      this.env, this.host := env, host;
    }

    /** `_PackageRemover.remove`: false stands for the exception. */
    method Remove(uuid: Uuid, package: string) returns (done: bool)
      modifies host
      ensures var removed := Removed(env, uuid, old(host.Value()));
              && done == AptRemoves(env, uuid, package, old(host.Value()))
              && host.Value() == old(host.Value()).(
                   calls := old(host.calls) + [RemoveCall(uuid, package, removed, done)],
                   installed := old(host.installed) - removed)
    {
      var removed := Removed(env, uuid, host.Value());
      done := AptRemoves(env, uuid, package, host.Value());
      host.calls := host.calls + [RemoveCall(uuid, package, removed, done)];
      host.installed := host.installed - removed;
    }

    /** `_uninstall_and_publish`. */
    method Execute(uuid: Uuid, package: string)
      modifies host
      ensures host.Value() == Uninstall(env, uuid, package, old(host.Value()))
    {
      ghost var w := host.Value();
      var i := 0;
      while i < |REMOVAL_STEPS|
        invariant 0 <= i <= |REMOVAL_STEPS|
        invariant host.Value() ==
                  if i == 0 then w
                  else if i == 1 then Install.Publish(w, Removal(uuid, RemovalStarting))
                  else Uninstall(env, uuid, package, w).(events := w.events
                      + [Removal(uuid, RemovalStarting), Removal(uuid, Removing)]
                                                         + if i == 2 then [] else [Removal(uuid, RemovalCompleted)])
        invariant i >= 2 ==> AptRemoves(env, uuid, package, w)
      {
        host.Publish(Removal(uuid, REMOVAL_STEPS[i]));
        if REMOVAL_STEPS[i] == Removing {
          var done := Remove(uuid, package);
          if !done {
            host.Publish(RemovalFailed(uuid, Removing));
            return;
          }
        }
        i := i + 1;
      }
    }
  }

  /** `service.PluginService`, with an executor that keeps submitted calls in order. */
  class PluginService {
    const env: Env
    const host: Host
    const depth: nat
    var jobs: seq<Job>

    function Value(): Server
      reads this, host
    {
      Server(host.Value(), jobs)
    }

    constructor (env: Env, host: Host, depth: nat)
      ensures this.env == env && this.host == host && this.depth == depth && jobs == []
    {
      this.env, this.host, this.depth, this.jobs := env, host, depth, [];
    }

    /** `create`: the answer is the uuid of a task that has not run yet. */
    method CreateTask(via: Method, options: Options, reinstall: bool, wazo: string) returns (uuid: Uuid)
      modifies this`jobs, host`next
      ensures uuid == old(host.next)
      ensures Value() == Accept(Create(via, options, reinstall, wazo), old(Value()))
    {
      uuid := host.NewUuid();
      jobs := jobs + [InstallJob(uuid, via, options, reinstall, wazo)];
    }

    /** `delete`; `None` stands for `PluginNotFoundException`. */
    method DeletePlugin(id: PluginId) returns (r: Option<Uuid>)
      modifies this`jobs, host`next
      ensures r == if id in host.installed then Some(old(host.next)) else None
      ensures Value() == Accept(Delete(id), old(Value()))
    {
      var uuid := host.NewUuid();
      if id !in host.installed { return None; }
      jobs := jobs + [RemoveJob(uuid, PackageName(id))];
      return Some(uuid);
    }

    /** The executor's thread takes the oldest call. */
    method RunOldest()
      modifies this, host
      ensures Value() == Respond(env, depth, RunNext, old(Value()))
    {
      if jobs == [] { return; }
      var job := jobs[0];
      jobs := jobs[1..];
      match job
      case InstallJob(uuid, via, options, reinstall, wazo) =>
        var task := new PackageAndInstallTask(env, host);
        var ctx := new Context(uuid, via, options, reinstall, wazo);
        task.PackageAndInstallImpl(ctx, depth);
      case RemoveJob(uuid, package) =>
        var task := new UninstallTask(env, host);
        task.Execute(uuid, package);
    }
  }
}
