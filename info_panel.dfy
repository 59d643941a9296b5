/**
 * `DeviceInfoPanel.update_info`: the snapshot is defaulted when missing or empty,
 * the activation state is classified into a status colour, the product code is
 * looked up in the marketing-name table, and the four labels are filled in.
 * The widgets themselves are not modelled; `PanelView` is what they would show.
 */
module InfoPanel {

  import opened Wrappers
  import opened Text
  import DeviceInfo

  /** The three colours the status dot and the activation label use. */
  datatype Color = Green | Orange | Red

  /** What the panel shows after an update. */
  datatype PanelView = PanelView(
    status: Color,          // the status dot (#4caf50, #ff9800 or #f44336)
    model: string,          // the "Model:" label
    ios: string,            // the "iOS:" label
    activation: string,     // the "Activation:" label
    activationColor: Color, // the colour of the "Activation:" label
    udid: string,           // the "UDID:" label
    statusTip: string       // the tooltip of the status dot
  )

  const Placeholder: string := DeviceInfo.Placeholder

  /** The snapshot shown when there is none. */
  const DefaultInfo: map<string, string> := map[
    "ProductType" := Placeholder,
    "ProductVersion" := Placeholder,
    "ActivationState" := Placeholder,
    "UniqueDeviceID" := Placeholder
  ]

  /** Product codes with a marketing name; any other code is shown as itself. */
  const ModelNames: map<string, string> := map[
    "iPhone13,4" := "iPhone 12 Pro Max",
    "iPhone13,3" := "iPhone 12 Pro",
    "iPhone13,2" := "iPhone 12",
    "iPhone14,5" := "iPhone 13",
    "iPhone15,2" := "iPhone 14 Pro",
    "iPhone15,3" := "iPhone 14 Pro Max",
    "iPhone16,1" := "iPhone 15 Pro",
    "iPhone16,2" := "iPhone 15 Pro Max"
  ]

  /** Python's `dict.get(key, default)`. */
  function Get(m: map<string, string>, key: string, default: string): (v: string)
    ensures key in m ==> v == m[key]
    ensures key !in m ==> v == default
  {
    if key in m then m[key] else default
  }

  /**
   * The snapshot `update_info` works on: the four-field placeholder map when it got
   * nothing (`None`, a value that is not a dict) or an empty dict, else the dict
   * itself, never merged with the defaults. `None` stands for every non-dict value.
   */
  function Normalize(info: Option<map<string, string>>): (m: map<string, string>)
    ensures m != map[]
    ensures info.Some? && info.value != map[] ==> m == info.value
    ensures info.None? || info.value == map[] ==> m == DefaultInfo
  {
    if info.None? || info.value == map[] then
      assert "ProductType" in DefaultInfo;
      DefaultInfo
    else info.value
  }

  /** The status dot for a stripped activation state. */
  function Classify(act: string): (c: Color)
    ensures c == Green <==> act == "Activated"
    ensures c == Orange <==> act == "Unactivated" || act == Placeholder
    ensures c == Red <==> act != "Activated" && act != "Unactivated" && act != Placeholder
  {
    if act == "Activated" then Green
    else if act == "Unactivated" || act == Placeholder then Orange
    else Red
  }

  /** The tooltip of the status dot. */
  function StatusTip(c: Color): (tip: string)
    ensures tip == "✅ Activated" <==> c == Green
    ensures tip == "⚠ Not activated" <==> c == Orange
    ensures tip == "❌ Unknown" <==> c == Red
  {
    match c
    case Green => "✅ Activated"
    case Orange => "⚠ Not activated"
    case Red => "❌ Unknown"
  }

  /** The model label: the marketing name of the product code, else the code, `"Unknown"` without one. */
  function ModelName(info: map<string, string>): (name: string)
    ensures name in ModelNames.Values || name == Get(info, "ProductType", "Unknown")
  {
    var code := Get(info, "ProductType", "Unknown");
    Get(ModelNames, code, code)
  }

  /** Everything `update_info` sets, as one value. */
  function Render(info: Option<map<string, string>>): (view: PanelView)
    ensures view.activationColor == Green <==> view.activation == "Activated"
    ensures view.statusTip == StatusTip(view.status)
    ensures view.model == ModelName(Normalize(info))
    ensures view.ios == Get(Normalize(info), "ProductVersion", Placeholder)
    ensures info.Some? && "UniqueDeviceID" in info.value ==> view.udid == info.value["UniqueDeviceID"]
  {
    var m := Normalize(info);
    var state := Get(m, "ActivationState", Placeholder);
    PanelView(
      Classify(Strip(Get(m, "ActivationState", ""))),
      ModelName(m),
      Get(m, "ProductVersion", Placeholder),
      state,
      if state == "Activated" then Green else Orange,
      Get(m, "UniqueDeviceID", Placeholder),
      StatusTip(Classify(Strip(Get(m, "ActivationState", "")))))
  }

  /** The placeholder contains no whitespace, so stripping leaves it alone. */
  lemma PlaceholderStripped()
    ensures Strip(Placeholder) == Placeholder
  {
    StripUnchanged(Placeholder);
  }

  /**
   * With no snapshot, or an empty one, every label shows the placeholder and both
   * the dot and the activation label are orange.
   */
  lemma RenderNothing(info: Option<map<string, string>>)
    requires info.None? || info.value == map[]
    ensures Render(info) == PanelView(Orange, Placeholder, Placeholder, Placeholder, Orange, Placeholder, "⚠ Not activated")
  {
    PlaceholderStripped();
    assert Placeholder !in ModelNames;
  }

  /** The status dot is classified on the stripped activation state of the normalised snapshot. */
  lemma RenderStatus(info: Option<map<string, string>>)
    ensures var act := Strip(Get(Normalize(info), "ActivationState", ""));
      && (Render(info).status == Green <==> act == "Activated")
      && (Render(info).status == Orange <==> act == "Unactivated" || act == Placeholder)
      && (Render(info).status == Red <==> act != "Activated" && act != "Unactivated" && act != Placeholder)
  {
  }

  /**
   * The model label: the marketing name when the product code has one, the code
   * itself when it has none, and `"Unknown"` when the snapshot has no product code.
   */
  lemma ModelNameCases(m: map<string, string>)
    ensures "ProductType" in m && m["ProductType"] in ModelNames ==> ModelName(m) == ModelNames[m["ProductType"]]
    ensures "ProductType" in m && m["ProductType"] !in ModelNames ==> ModelName(m) == m["ProductType"]
    ensures "ProductType" !in m ==> ModelName(m) == "Unknown"
  {
    assert "Unknown" !in ModelNames;
  }

  /** A green activation label always comes with a green status dot. */
  lemma GreenLabelMeansGreenDot(info: Option<map<string, string>>)
    ensures Render(info).activationColor == Green ==> Render(info).status == Green
  {
    var m := Normalize(info);
    if Get(m, "ActivationState", Placeholder) == "Activated" {
      StripUnchanged("Activated");
    }
  }

  /**
   * The converse fails: the dot compares the STRIPPED state, the label the raw
   * one, so a state with surrounding blanks gives a green dot beside an orange label.
   */
  lemma PaddedStateSplitsColours()
    ensures Render(Some(map["ActivationState" := " Activated"])).status == Green
    ensures Render(Some(map["ActivationState" := " Activated"])).activationColor == Orange
  {
    var s := " Activated";
    var m := map["ActivationState" := s];
    assert "ActivationState" in m;
    assert Get(m, "ActivationState", "") == s;
    assert SkipSpace(s, 1) == 1;
    assert SkipSpace(s, 0) == 1;
    assert StripStart(s) == 1;
    assert StripEnd(s) == |s|;
    assert Strip(s) == "Activated";
  }

  /**
   * A non-empty snapshot without an activation state is not defaulted field by
   * field: the dot turns red (the empty state is unknown) while the label shows
   * the placeholder.
   */
  lemma MissingStateIsRed(m: map<string, string>)
    requires m != map[] && "ActivationState" !in m
    ensures Render(Some(m)).status == Red
    ensures Render(Some(m)).activation == Placeholder && Render(Some(m)).activationColor == Orange
  {
    StripUnchanged("");
  }

  /**
   * A failed device poll shows exactly what the panel shows with no snapshot:
   * placeholders everywhere, never values left over from an earlier poll.
   */
  lemma FailedPollShowsPlaceholders(infoCmd: DeviceInfo.CmdResult, idCmd: DeviceInfo.CmdResult)
    requires infoCmd.Raised? || infoCmd.code != 0 || idCmd.Raised?
    ensures Render(Some(DeviceInfo.PolledSnapshot(infoCmd, idCmd))) ==
      PanelView(Orange, Placeholder, Placeholder, Placeholder, Orange, Placeholder, "⚠ Not activated")
  {
    DeviceInfo.PollFailureIsEmpty(infoCmd, idCmd);
    RenderNothing(Some(map[]));
  }
}
