/**
 * The embeddability classifier shared by `embed_window` and
 * `can_embed_window`: a window of the host's own process is refused first,
 * then a window whose class name contains a denylisted name anywhere in it.
 */
module Classifier {
  import opened Common
  import opened Strings
  import opened Win32
  import opened WindowManager

  /** Why a window may not be embedded. */
  datatype Refusal =
    | SelfProcess
    | ForbiddenClass(className: string)
    | NoHostFrame

  /** Class names known to misbehave when reparented, in the order lib.rs lists them. */
  const Denylist: seq<string> := [
    "CabinetWClass",
    "ExplorerWClass",
    "Progman",
    "WorkerW",
    "Shell_TrayWnd",
    "Shell_SecondaryTrayWnd",
    "TaskManagerWindow",
    "Windows.UI.Core.CoreWindow"
  ]

  /** Does `className` contain any of `names`? (`names.iter().any(|d| class_name.contains(d))`) */
  function ContainsAny(className: string, names: seq<string>): (r: bool)
    ensures r <==> exists i :: 0 <= i < |names| && Contains(className, names[i])
  {
    if |names| == 0 then false
    else if Contains(className, names[0]) then true
    else
      var r := ContainsAny(className, names[1..]);
      assert forall i :: 0 < i < |names| ==> names[i] == names[1..][i - 1];
      r
  }

  /** `is_dangerous_window`: some denylisted name occurs somewhere in the class name. */
  function IsDangerous(className: string): (r: bool)
    ensures r <==> exists i, j :: 0 <= i < |Denylist| && OccursAt(className, Denylist[i], j)
  {
    forall i | 0 <= i < |Denylist|
      ensures Contains(className, Denylist[i]) <==> exists j :: OccursAt(className, Denylist[i], j)
    {
      ContainsIff(className, Denylist[i]);
    }
    ContainsAny(className, Denylist)
  }

  /**
   * `is_self_window`: the owning process, as `GetWindowThreadProcessId`
   * reports it, is the host's. A handle that is not a window reads as
   * process 0, so it counts as the host's only when the host's id is 0.
   */
  function IsSelfWindow(st: State, selfPid: nat, h: Handle): (r: bool)
    ensures r <==> if h in st.windows then st.windows[h].pid == selfPid else selfPid == 0
  {
    ProcessOf(st, h) == selfPid
  }

  /**
   * `can_embed_window` and the guard at the head of `embed_window`: refuse the
   * host's own windows without looking at the class, then refuse exactly the
   * classes containing a denylisted name, otherwise accept.
   */
  function CanEmbed(st: State, selfPid: nat, h: Handle): (r: Result<bool, Refusal>)
    ensures IsSelfWindow(st, selfPid, h) ==> r == Err(SelfProcess)
    ensures !IsSelfWindow(st, selfPid, h) ==>
              (r == Err(ForbiddenClass(ClassOf(st, h))) <==>
                 exists i :: 0 <= i < |Denylist| && Contains(ClassOf(st, h), Denylist[i]))
    ensures r.Ok? ==> r.value && !IsSelfWindow(st, selfPid, h) && !IsDangerous(ClassOf(st, h))
    ensures r == Ok(true) <==> !IsSelfWindow(st, selfPid, h) && !IsDangerous(ClassOf(st, h))
    ensures r.Err? ==> r.error != NoHostFrame
  {
    if IsSelfWindow(st, selfPid, h) then Err(SelfProcess)
    else
      var className := ClassOf(st, h);
      if IsDangerous(className) then Err(ForbiddenClass(className))
      else Ok(true)
  }

  /** A denylisted name with anything added before or after it is still refused. */
  lemma DenylistedVariantsRefused(p: string, i: nat, q: string)
    requires i < |Denylist|
    ensures IsDangerous(p + Denylist[i] + q)
  {
    ContainsSelf(Denylist[i]);
    ContainsInfix(p, Denylist[i], q, Denylist[i]);
  }

  /** The verdict on a window of the host's process is the same whatever its class. */
  lemma SelfCheckComesFirst(st: State, selfPid: nat, h: Handle, className: string)
    requires h in st.windows && st.windows[h].pid == selfPid
    ensures CanEmbed(st.(windows := st.windows[h := st.windows[h].(className := className)]), selfPid, h)
            == CanEmbed(st, selfPid, h) == Err(SelfProcess)
  {
  }

  /** A file-explorer window of another process is refused with its class name. */
  lemma ExplorerRefused(st: State, selfPid: nat, h: Handle)
    requires h in st.windows && st.windows[h].pid != selfPid
    requires st.windows[h].className == "CabinetWClass"
    ensures CanEmbed(st, selfPid, h) == Err(ForbiddenClass("CabinetWClass"))
  {
    DenylistedVariantsRefused("", 0, "");
    assert "" + Denylist[0] + "" == "CabinetWClass";
  }
}
