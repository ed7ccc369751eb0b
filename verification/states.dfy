/** The Salt states `user_present` and `user_absent`. The execution-module
    functions they reach through Salt's loader are not run here: `Env`
    holds what each call answers (a value or an exception), and every call
    made is logged with its arguments. */
module States {
  import opened Outcomes

  const NoPasswordComment :=
    "Found no password. Make sure password or password_pillar is specified. If password_pillar is used, make sure the pillar value exists on this minion."
  const SomethingWrongComment :=
    "Something went wrong. This should not happen at all since errors are raised."

  function NotCheckedComment(name: string): string {
    "User " + name + " already exists. The password was not checked."
  }

  function MatchesComment(name: string): string {
    "The password for existing user " + name + " matches."
  }

  function Verb(update: bool): string {
    if update then "updated" else "added"
  }

  function WouldComment(name: string, update: bool): string {
    "User " + name + " would have been " + Verb(update) + "."
  }

  function DoneComment(name: string, update: bool): string {
    "User " + name + " has been " + Verb(update) + "."
  }

  function AbsentComment(name: string): string {
    "User " + name + " is already absent."
  }

  function WouldRemoveComment(name: string): string {
    "User " + name + " would have been removed."
  }

  function RemovedComment(name: string): string {
    "User " + name + " has been removed."
  }

  /** `mosquitto` or `mosquitto_goauth`. */
  function ModuleName(goauth: bool): string {
    if goauth then "mosquitto_goauth" else "mosquitto"
  }

  /** What the loader answers: the `test` option, the pillar value, and the
      result of each execution-module function. */
  datatype Env = Env(test: bool, pillar: Option<string>, userExists: Result<bool>,
                     checkPassword: Result<bool>, pwHash: Result<string>, addUser: Result<bool>,
                     rmUser: Result<bool>)

  /** An execution-module function with the arguments it was given. */
  datatype Fn =
    | UserExistsFn(name: string, pwFile: string)
    | CheckPasswordFn(password: string, name: string, pwFile: string)
    | GetPwHashFn(password: string, hashOpts: map<string, string>)
    | AddUserFn(name: string, passwordHash: string, update: bool, pwFile: string)
    | RmUserFn(name: string, pwFile: string)

  datatype Call = PillarGet(key: Option<string>) | ModuleCall(family: string, fn: Fn)

  /** The state's return dictionary; `result` None is the test-mode
      answer. */
  datatype Ret = Ret(name: string, result: Option<bool>, comment: string, changes: map<string, string>)

  datatype Outcome = Returned(ret: Ret) | Raised(error: Error)

  function Initial(name: string): Ret {
    Ret(name, Some(true), "", map[])
  }

  /** The `except (CommandExecutionError, SaltInvocationError)` clause:
      those two become result False with the message as comment; any other
      exception escapes the state. */
  function Caught(ret: Ret, e: Error): (o: Outcome)
    ensures IsSaltError(e) ==> o.Returned? && o.ret.result == Some(false) && o.ret.changes == ret.changes
    ensures !IsSaltError(e) ==> o == Raised(e)
  {
    if IsSaltError(e) then Returned(ret.(result := Some(false), comment := e.msg)) else Raised(e)
  }

  /** `password or __salt__["pillar.get"](password_pillar)`. */
  function Resolved(password: Option<string>, env: Env): Option<string> {
    if password.Some? && password.value != "" then password else env.pillar
  }

  /** The pillar lookup, made only when no usable password was given. */
  function PillarCalls(password: Option<string>, passwordPillar: Option<string>): seq<Call> {
    if password.Some? && password.value != "" then [] else [PillarGet(passwordPillar)]
  }

  /** The lookup calls that lead to a write: user_exists, then
      check_password when the user exists. */
  function LookupCalls(m: string, name: string, pw: string, update: bool, pwFile: string): seq<Call> {
    [ModuleCall(m, UserExistsFn(name, pwFile))]
    + (if update then [ModuleCall(m, CheckPasswordFn(pw, name, pwFile))] else [])
  }

  /** The calls of the write phase: none in test mode, otherwise
      get_pw_hash, then add_user once a hash was obtained. */
  function WriteCalls(env: Env, m: string, name: string, pw: string, update: bool, pwFile: string,
                      hashOpts: map<string, string>): seq<Call> {
    if env.test then []
    else if env.pwHash.Err? then [ModuleCall(m, GetPwHashFn(pw, hashOpts))]
    else [ModuleCall(m, GetPwHashFn(pw, hashOpts)), ModuleCall(m, AddUserFn(name, env.pwHash.value, update, pwFile))]
  }

  /** What the write phase reports. */
  predicate WriteReported(env: Env, name: string, update: bool, out: Outcome) {
    && (env.test ==>
          out == Returned(Initial(name).(result := None, comment := WouldComment(name, update),
                                         changes := map[Verb(update) := name])))
    && (!env.test && env.pwHash.Err? ==> out == Caught(Initial(name), env.pwHash.error))
    && (!env.test && env.pwHash.Ok? && env.addUser == Ok(true) ==>
          out == Returned(Initial(name).(comment := DoneComment(name, update), changes := map[Verb(update) := name])))
    && (!env.test && env.pwHash.Ok? && env.addUser == Ok(false) ==>
          out == Returned(Initial(name).(result := Some(false), comment := SomethingWrongComment)))
    && (!env.test && env.pwHash.Ok? && env.addUser.Err? ==> out == Caught(Initial(name), env.addUser.error))
  }

  /** user_present. */
  method UserPresent(env: Env, name: string, password: Option<string>, passwordPillar: Option<string>,
                     managePassword: bool, pwFile: string, goauth: bool, hashOpts: map<string, string>)
    returns (out: Outcome, calls: seq<Call>)
    // every execution-module call goes to the family `goauth` selects
    ensures forall c :: c in calls && c.ModuleCall? ==> c.family == ModuleName(goauth)
    // add_user is told to update exactly when the user already existed
    ensures forall c :: c in calls && c.ModuleCall? && c.fn.AddUserFn? ==>
              c.fn.update == (env.userExists == Ok(true))
    // a failed state never reports changes
    ensures out.Returned? && out.ret.result == Some(false) ==> out.ret.changes == map[]
    ensures var pw := Resolved(password, env);
            var m := ModuleName(goauth);
            var asked := PillarCalls(password, passwordPillar);
            var probe := ModuleCall(m, UserExistsFn(name, pwFile));
            && (pw.None? ==>
                  out == Returned(Initial(name).(result := Some(false), comment := NoPasswordComment))
                  && calls == asked)
            && (pw.Some? && env.userExists.Err? ==>
                  out == Caught(Initial(name), env.userExists.error) && calls == asked + [probe])
            && (pw.Some? && env.userExists == Ok(true) && !managePassword ==>
                  out == Returned(Initial(name).(comment := NotCheckedComment(name))) && calls == asked + [probe])
            && (pw.Some? && env.userExists == Ok(true) && managePassword ==>
                  var check := ModuleCall(m, CheckPasswordFn(pw.value, name, pwFile));
                  && (env.checkPassword == Ok(true) ==>
                        out == Returned(Initial(name).(comment := MatchesComment(name)))
                        && calls == asked + [probe, check])
                  && (env.checkPassword.Err? ==>
                        out == Caught(Initial(name), env.checkPassword.error) && calls == asked + [probe, check]))
    // the user is missing, or exists with another password: add or update
    ensures var pw := Resolved(password, env);
            var m := ModuleName(goauth);
            var update := env.userExists == Ok(true);
            pw.Some? && (env.userExists == Ok(false) || (update && managePassword && env.checkPassword == Ok(false)))
            ==>
              && WriteReported(env, name, update, out)
              && calls == PillarCalls(password, passwordPillar)
                          + (LookupCalls(m, name, pw.value, update, pwFile)
                             + WriteCalls(env, m, name, pw.value, update, pwFile, hashOpts))
  {
    var ret := Initial(name);
    calls := [];
    var pw := password;
    if pw.None? || pw.value == "" {
      calls := [PillarGet(passwordPillar)];
      pw := env.pillar;
    }

    if pw.None? {
      ret := ret.(result := Some(false), comment := NoPasswordComment);
      return Returned(ret), calls;
    }

    var more: seq<Call>;
    out, more := Reconcile(env, name, pw.value, managePassword, pwFile, ModuleName(goauth), hashOpts);
    calls := calls + more;
  }

  /** The body of user_present's `try`: look the user up, compare the
      password when asked to, then hand over to the write phase. */
  method Reconcile(env: Env, name: string, pw: string, managePassword: bool, pwFile: string, m: string,
                   hashOpts: map<string, string>) returns (out: Outcome, calls: seq<Call>)
    ensures forall c :: c in calls ==> c.ModuleCall? && c.family == m
    ensures forall c :: c in calls && c.fn.AddUserFn? ==> c.fn.update == (env.userExists == Ok(true))
    ensures out.Returned? && out.ret.result == Some(false) ==> out.ret.changes == map[]
    ensures var probe := ModuleCall(m, UserExistsFn(name, pwFile));
            var check := ModuleCall(m, CheckPasswordFn(pw, name, pwFile));
            && (env.userExists.Err? ==> out == Caught(Initial(name), env.userExists.error) && calls == [probe])
            && (env.userExists == Ok(true) && !managePassword ==>
                  out == Returned(Initial(name).(comment := NotCheckedComment(name))) && calls == [probe])
            && (env.userExists == Ok(true) && managePassword && env.checkPassword == Ok(true) ==>
                  out == Returned(Initial(name).(comment := MatchesComment(name))) && calls == [probe, check])
            && (env.userExists == Ok(true) && managePassword && env.checkPassword.Err? ==>
                  out == Caught(Initial(name), env.checkPassword.error) && calls == [probe, check])
    ensures var update := env.userExists == Ok(true);
            env.userExists == Ok(false) || (update && managePassword && env.checkPassword == Ok(false))
            ==>
              && WriteReported(env, name, update, out)
              && calls == LookupCalls(m, name, pw, update, pwFile)
                          + WriteCalls(env, m, name, pw, update, pwFile, hashOpts)
  {
    var ret := Initial(name);
    var probe := ModuleCall(m, UserExistsFn(name, pwFile));
    var check := ModuleCall(m, CheckPasswordFn(pw, name, pwFile));
    var update := false;
    if env.userExists.Err? {
      return Caught(ret, env.userExists.error), [probe];
    }
    if env.userExists.value {
      if !managePassword {
        ret := ret.(comment := NotCheckedComment(name));
        return Returned(ret), [probe];
      }
      if env.checkPassword.Err? {
        return Caught(ret, env.checkPassword.error), [probe, check];
      }
      if env.checkPassword.value {
        ret := ret.(comment := MatchesComment(name));
        return Returned(ret), [probe, check];
      }
      update := true;
    }

    var more: seq<Call>;
    out, more := WritePhase(env, name, pw, update, m, pwFile, hashOpts);
    calls := LookupCalls(m, name, pw, update, pwFile) + more;
  }

  /** The end of user_present, once it is known whether the user is added
      or updated: the test-mode report, or the hash and add_user. */
  method WritePhase(env: Env, name: string, pw: string, update: bool, m: string, pwFile: string,
                    hashOpts: map<string, string>) returns (out: Outcome, calls: seq<Call>)
    ensures forall c :: c in calls ==> c.ModuleCall? && c.family == m
    ensures forall c :: c in calls && c.fn.AddUserFn? ==> c.fn.update == update
    ensures out.Returned? && out.ret.result == Some(false) ==> out.ret.changes == map[]
    ensures WriteReported(env, name, update, out)
    ensures calls == WriteCalls(env, m, name, pw, update, pwFile, hashOpts)
  {
    var ret := Initial(name);
    if env.test {
      ret := ret.(result := None, comment := WouldComment(name, update), changes := map[Verb(update) := name]);
      return Returned(ret), [];
    }

    var hash := ModuleCall(m, GetPwHashFn(pw, hashOpts));
    if env.pwHash.Err? {
      return Caught(ret, env.pwHash.error), [hash];
    }
    calls := [hash, ModuleCall(m, AddUserFn(name, env.pwHash.value, update, pwFile))];
    if env.addUser.Err? {
      return Caught(ret, env.addUser.error), calls;
    }
    if env.addUser.value {
      ret := ret.(comment := DoneComment(name, update), changes := map[Verb(update) := name]);
    } else {
      ret := ret.(result := Some(false), comment := SomethingWrongComment);
    }
    out := Returned(ret);
  }

  /** user_absent. */
  method UserAbsent(env: Env, name: string, pwFile: string, goauth: bool) returns (out: Outcome, calls: seq<Call>)
    ensures forall c :: c in calls && c.ModuleCall? ==> c.family == ModuleName(goauth)
    ensures |calls| >= 1 && calls[0] == ModuleCall(ModuleName(goauth), UserExistsFn(name, pwFile))
    ensures env.userExists.Err? ==> out == Caught(Initial(name), env.userExists.error) && |calls| == 1
    ensures env.userExists == Ok(false) ==>
      out == Returned(Initial(name).(comment := AbsentComment(name))) && |calls| == 1
    ensures env.userExists == Ok(true) && env.test ==>
      && out == Returned(Initial(name).(result := None, comment := WouldRemoveComment(name),
                                        changes := map["removed" := name]))
      && |calls| == 1
    ensures env.userExists == Ok(true) && !env.test ==>
      && calls == [ModuleCall(ModuleName(goauth), UserExistsFn(name, pwFile)),
                   ModuleCall(ModuleName(goauth), RmUserFn(name, pwFile))]
      && (env.rmUser == Ok(true) ==>
            out == Returned(Initial(name).(comment := RemovedComment(name), changes := map["removed" := name])))
      && (env.rmUser == Ok(false) ==>
            out == Returned(Initial(name).(result := Some(false), comment := SomethingWrongComment)))
      && (env.rmUser.Err? ==> out == Caught(Initial(name), env.rmUser.error))
  {
    var ret := Initial(name);
    var m := ModuleName(goauth);
    calls := [ModuleCall(m, UserExistsFn(name, pwFile))];
    if env.userExists.Err? {
      return Caught(ret, env.userExists.error), calls;
    }
    if !env.userExists.value {
      ret := ret.(comment := AbsentComment(name));
      return Returned(ret), calls;
    }
    if env.test {
      ret := ret.(result := None, comment := WouldRemoveComment(name), changes := map["removed" := name]);
      return Returned(ret), calls;
    }
    calls := calls + [ModuleCall(m, RmUserFn(name, pwFile))];
    if env.rmUser.Err? {
      return Caught(ret, env.rmUser.error), calls;
    }
    if env.rmUser.value {
      ret := ret.(comment := RemovedComment(name), changes := map["removed" := name]);
    } else {
      ret := ret.(result := Some(false), comment := SomethingWrongComment);
    }
    out := Returned(ret);
  }
}
