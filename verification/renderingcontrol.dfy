/**
  The UPnP RenderingControl client (libupnpp/control/renderingcontrol.cxx):
  recognising the service type, tracking volume and mute from LastChange
  events, and the return codes of the volume and mute actions.

  The SOAP exchange is a function from action calls to replies; the
  LastChange decoder, atoi and stringToBool are inputs.
 */
module RenderingControl {

  import opened Wrappers

  // ---------------------------------------------------------------------
  // Service type

  /** The service-type URN form of section 2.1 of the UPnP Device
      Architecture 1.0: urn:schemas-upnp-org:service:<type>:<version>. */
  function ServiceType(name: string, version: string): string
  {
    "urn:schemas-upnp-org:service:" + name + ":" + version
  }

  /** RenderingControl::SType, the version 1 service type. */
  const SType: string := "urn:schemas-upnp-org:service:RenderingControl:1"

  /** The part of SType that is compared: everything but the ":1" suffix. */
  const STypePrefix: string := SType[..|SType| - 2]

  /** RenderingControl::isRDCService: st starts with SType minus its last two
      characters (the compare of the first |SType| - 2 characters of both
      strings fails on a shorter st). */
  function IsRDCService(st: string): (r: bool)
    ensures r <==> |st| >= |STypePrefix| && forall i :: 0 <= i < |STypePrefix| ==> st[i] == STypePrefix[i]
  {
    |st| >= |SType| - 2 && st[..|SType| - 2] == SType[..|SType| - 2]
  }

  /** Any version of the RenderingControl service is accepted, and so is SType itself. */
  lemma AnyVersionAccepted(version: string)
    ensures IsRDCService(ServiceType("RenderingControl", version))
    ensures IsRDCService(SType)
  {
    assert STypePrefix == "urn:schemas-upnp-org:service:RenderingControl";
    assert ServiceType("RenderingControl", version)[..|STypePrefix|] == STypePrefix;
  }

  /** An accepted service type is longer than the prefix and has it at its
      head; a string shorter than the prefix is rejected. */
  lemma AcceptedHasPrefix(st: string)
    ensures IsRDCService(st) ==> |st| >= 45 && st[..45] == "urn:schemas-upnp-org:service:RenderingControl"
    ensures |st| < 45 ==> !IsRDCService(st)
  {
    assert |STypePrefix| == 45;
    assert STypePrefix == "urn:schemas-upnp-org:service:RenderingControl";
  }

  /** Other services of the same form are rejected. */
  lemma OtherServicesRejected(version: string)
    ensures !IsRDCService(ServiceType("AVTransport", version))
    ensures !IsRDCService(ServiceType("ConnectionManager", version))
  {
    assert STypePrefix[29] == 'R';
    assert ServiceType("AVTransport", version)[29] == 'A';
    assert ServiceType("ConnectionManager", version)[29] == 'C';
  }

  // ---------------------------------------------------------------------
  // Eventing

  /** The state evtCallback maintains: m_volume and m_mute. */
  datatype RCState = RCState(volume: int, mute: bool)

  /** Decodes a LastChange value into its variables; None on failure. */
  type LastChangeDecoder = string -> Option<map<string, string>>

  /** atoi on a variable's text. */
  type AtoI = string -> int

  /** stringToBool: the value when the text parses as a boolean. */
  type ToBool = string -> Option<bool>

  /** The inner loop over a decoded LastChange: "Volume" sets the volume (via
      atoi), "Mute" sets the mute flag when the text parses as a boolean, and
      every other variable is ignored. The decoder's result has one entry per
      name, so the order of the loop does not matter. */
  function ApplyLastChange(st: RCState, vars: map<string, string>, atoi: AtoI, toBool: ToBool): (r: RCState)
    ensures "Volume" !in vars ==> r.volume == st.volume
    ensures "Volume" in vars ==> r.volume == atoi(vars["Volume"])
    ensures "Mute" in vars && toBool(vars["Mute"]).Some? ==> r.mute == toBool(vars["Mute"]).value
    ensures !("Mute" in vars && toBool(vars["Mute"]).Some?) ==> r.mute == st.mute
  {
    var volume := if "Volume" in vars then atoi(vars["Volume"]) else st.volume;
    var mute :=
      if "Mute" in vars then
        match toBool(vars["Mute"])
        case Some(b) => b
        case None => st.mute
      else st.mute;
    RCState(volume, mute)
  }

  /** Variables other than Volume and Mute change nothing. */
  lemma OtherVariablesIgnored(st: RCState, vars: map<string, string>, name: string, value: string,
                              atoi: AtoI, toBool: ToBool)
    requires name != "Volume" && name != "Mute"
    ensures ApplyLastChange(st, vars[name := value], atoi, toBool) == ApplyLastChange(st, vars, atoi, toBool)
  {
  }

  /** Applying the same LastChange twice is applying it once. */
  lemma ApplyIdempotent(st: RCState, vars: map<string, string>, atoi: AtoI, toBool: ToBool)
    ensures var once := ApplyLastChange(st, vars, atoi, toBool);
      ApplyLastChange(once, vars, atoi, toBool) == once
  {
  }

  /** The name of the evented state variable that carries the changes. */
  const LastChange: string := "LastChange"

  /** RenderingControl::evtCallback over the event's variables in iteration
      order: a LastChange variable is decoded and applied; a decode failure
      returns at once, skipping the variables after it; other variables are
      ignored. */
  function EvtCallback(st: RCState, props: seq<(string, string)>, decode: LastChangeDecoder,
                       atoi: AtoI, toBool: ToBool): (r: RCState)
    ensures (forall i :: 0 <= i < |props| ==> props[i].0 != LastChange) ==> r == st
    decreases |props|
  {
    if |props| == 0 then st
    else if props[0].0 == LastChange then
      match decode(props[0].1)
      case None => st
      case Some(vars) => EvtCallback(ApplyLastChange(st, vars, atoi, toBool), props[1..], decode, atoi, toBool)
    else EvtCallback(st, props[1..], decode, atoi, toBool)
  }

  /** A failed LastChange decode ends the callback: nothing after it is looked at. */
  lemma DecodeFailureStops(st: RCState, value: string, rest: seq<(string, string)>, decode: LastChangeDecoder,
                           atoi: AtoI, toBool: ToBool)
    requires decode(value).None?
    ensures EvtCallback(st, [(LastChange, value)] + rest, decode, atoi, toBool) == st
  {
  }

  /** Names in an event are distinct: it comes from an unordered_map. */
  predicate DistinctNames(props: seq<(string, string)>)
  {
    forall i, j :: 0 <= i < j < |props| ==> props[i].0 != props[j].0
  }

  /** The callback's effect does not depend on the iteration order: with
      distinct names it is the decoded LastChange applied once, or no change
      when the decode fails or there is no LastChange. */
  lemma {:induction false} EvtCallbackEffect(st: RCState, props: seq<(string, string)>, k: nat,
                                             decode: LastChangeDecoder, atoi: AtoI, toBool: ToBool)
    requires DistinctNames(props) && k < |props| && props[k].0 == LastChange
    ensures EvtCallback(st, props, decode, atoi, toBool) ==
      match decode(props[k].1)
      case None => st
      case Some(vars) => ApplyLastChange(st, vars, atoi, toBool)
    decreases |props|
  {
    var tail := props[1..];
    assert DistinctNames(tail) by {
      assert forall i :: 0 <= i < |tail| ==> tail[i] == props[i + 1];
    }
    if k > 0 {
      assert tail[k - 1] == props[k];
      EvtCallbackEffect(st, tail, k - 1, decode, atoi, toBool);
    } else {
      assert forall i :: 0 <= i < |tail| ==> tail[i].0 == props[i + 1].0 != LastChange;
    }
  }

  // ---------------------------------------------------------------------
  // Actions

  /** UPNP_E_SUCCESS and UPNP_E_BAD_RESPONSE (pupnp's upnp.h). */
  const Success: int := 0
  const BadResponse: int := -113

  /** The SOAP actions the client runs, with their arguments. */
  datatype Action =
    | SetVolumeCall(channel: string, desiredVolume: int)
    | GetVolumeCall(channel: string)
    | SetMuteCall(channel: string, desiredMute: bool)
    | GetMuteCall(channel: string)

  /** runAction's result: its code and the response's output arguments. */
  datatype Reply = Reply(code: int, out: map<string, string>)

  /** The SOAP exchange of runAction. */
  type Soap = Action -> Reply

  /** RenderingControl::setVolume: 0 on success, the action's code otherwise. */
  function SetVolume(soap: Soap, volume: int, channel: string): (r: int)
    ensures r == soap(SetVolumeCall(channel, volume)).code
    ensures r == Success <==> soap(SetVolumeCall(channel, volume)).code == Success
  {
    var ret := soap(SetVolumeCall(channel, volume)).code;
    if ret != Success then ret else 0
  }

  /** RenderingControl::setMute: 0 on success, the action's code otherwise. */
  function SetMute(soap: Soap, mute: bool, channel: string): (r: int)
    ensures r == soap(SetMuteCall(channel, mute)).code
    ensures r == Success <==> soap(SetMuteCall(channel, mute)).code == Success
  {
    var ret := soap(SetMuteCall(channel, mute)).code;
    if ret != Success then ret else 0
  }

  /** RenderingControl::getVolume: the action's code when it fails,
      UPNP_E_BAD_RESPONSE when the response has no CurrentVolume, otherwise
      CurrentVolume read with atoi. */
  function GetVolume(soap: Soap, atoi: AtoI, channel: string): (r: int)
    ensures var reply := soap(GetVolumeCall(channel));
      && (reply.code != Success ==> r == reply.code)
      && (reply.code == Success && "CurrentVolume" !in reply.out ==> r == BadResponse)
      && (reply.code == Success && "CurrentVolume" in reply.out ==> r == atoi(reply.out["CurrentVolume"]))
  {
    var reply := soap(GetVolumeCall(channel));
    if reply.code != Success then reply.code
    else if "CurrentVolume" !in reply.out then BadResponse
    else atoi(reply.out["CurrentVolume"])
  }

  /** Whatever code runAction returns, the setters return it unchanged and the
      getters report it as their failure; a successful action whose response
      lacks the value is UPNP_E_BAD_RESPONSE for either getter. */
  lemma ActionCodesPassThrough(code: int, atoi: AtoI, toBool: ToBool, volume: int, mute: bool, channel: string)
    ensures var soap: Soap := (a: Action) => Reply(code, map[]);
      && SetVolume(soap, volume, channel) == code
      && SetMute(soap, mute, channel) == code
      && GetVolume(soap, atoi, channel) == (if code == Success then BadResponse else code)
      && GetMute(soap, toBool, channel) == Err(if code == Success then BadResponse else code)
  {
  }

  /** getBool on a response: present and parsed as a boolean. */
  function GetBool(out: map<string, string>, name: string, toBool: ToBool): Option<bool>
  {
    if name in out then toBool(out[name]) else None
  }

  /** RenderingControl::getMute as written: an int returned through a bool, so
      an action code or UPNP_E_BAD_RESPONSE arrives as true. */
  function GetMuteAsWritten(soap: Soap, toBool: ToBool, channel: string): (r: bool)
    ensures var reply := soap(GetMuteCall(channel));
      && (reply.code != Success ==> r)
      && (reply.code == Success && GetBool(reply.out, "CurrentMute", toBool).None? ==> r)
      && (reply.code == Success && GetBool(reply.out, "CurrentMute", toBool).Some? ==>
            r == GetBool(reply.out, "CurrentMute", toBool).value)
  {
    var reply := soap(GetMuteCall(channel));
    var ret: int :=
      if reply.code != Success then reply.code
      else match GetBool(reply.out, "CurrentMute", toBool)
        case None => BadResponse
        case Some(mute) => if mute then 1 else 0;
    ret != 0
  }

  /** A renderer whose GetMute action fails reads as muted, the same answer as
      one that succeeds and reports CurrentMute true. */
  lemma FailedGetMuteReadsAsMuted(toBool: ToBool, channel: string)
    requires toBool("1") == Some(true)
    ensures var failing: Soap := (a: Action) => Reply(-1, map[]);
      var muted: Soap := (a: Action) => Reply(Success, map["CurrentMute" := "1"]);
      GetMuteAsWritten(failing, toBool, channel) == GetMuteAsWritten(muted, toBool, channel) == true
  {
  }

  /** getMute with the failure kept apart from the answer: the action's code,
      or UPNP_E_BAD_RESPONSE when CurrentMute is missing or unreadable. */
  function GetMute(soap: Soap, toBool: ToBool, channel: string): (r: Result<bool, int>)
    ensures r.Err? ==> r.error != Success
    ensures var reply := soap(GetMuteCall(channel));
      && (r.Ok? <==> reply.code == Success && GetBool(reply.out, "CurrentMute", toBool).Some?)
      && (reply.code != Success ==> r == Err(reply.code))
      && (r.Ok? ==> r.value == GetBool(reply.out, "CurrentMute", toBool).value)
  {
    var reply := soap(GetMuteCall(channel));
    if reply.code != Success then Err(reply.code)
    else match GetBool(reply.out, "CurrentMute", toBool)
      case None => Err(BadResponse)
      case Some(mute) => Ok(mute)
  }

  /** Where the action succeeds the two agree; where it fails the as-written
      version says true. */
  lemma GetMuteAgreesOnSuccess(soap: Soap, toBool: ToBool, channel: string)
    ensures GetMute(soap, toBool, channel).Ok? ==>
      GetMuteAsWritten(soap, toBool, channel) == GetMute(soap, toBool, channel).value
    ensures GetMute(soap, toBool, channel).Err? ==> GetMuteAsWritten(soap, toBool, channel)
  {
  }
}
