/** The status codes of the sauna and the three code-to-text tables (huum/const.py). */
module Const {

  /** The members of the `SaunaStatus` integer enumeration. */
  datatype SaunaStatus = Offline | OnlineHeating | OnlineNotHeating | Locked | EmergencyStop

  /** The integer value of each enumeration member. */
  function Code(s: SaunaStatus): int
  {
    match s
    case Offline => 230
    case OnlineHeating => 231
    case OnlineNotHeating => 232
    case Locked => 233
    case EmergencyStop => 400
  }

  /** The set of all enumeration values. */
  const StatusCodes: set<int> := set s: SaunaStatus | true :: Code(s)

  const StatusCodeTexts: map<int, string> := map[
    230 := "offline",
    231 := "online and heating",
    232 := "online but not heating",
    233 := "being used by another user and is locked",
    400 := "emergency stop"
  ]

  const ConfigCodeTexts: map<int, string> := map[
    1 := "Configured to user light system",
    2 := "Configured to use steamer system",
    3 := "Configured to use both light and steamer systems"
  ]

  const SteamerCodeTexts: map<int, string> := map[
    1 := "No water in steamer, steamer system not allowed to start"
  ]

  /** The five codes, and no two members share one. */
  lemma CodesAreDistinct()
    ensures StatusCodes == {230, 231, 232, 233, 400}
    ensures forall s, t :: Code(s) == Code(t) ==> s == t
    ensures Code(OnlineNotHeating) == 232
  {
    assert Code(Offline) in StatusCodes;
    assert Code(OnlineHeating) in StatusCodes;
    assert Code(OnlineNotHeating) in StatusCodes;
    assert Code(Locked) in StatusCodes;
    assert Code(EmergencyStop) in StatusCodes;
  }

  /** Every member has a non-empty description, and the table describes nothing else. */
  lemma StatusTextsCoverEnum()
    ensures StatusCodeTexts.Keys == StatusCodes
    ensures forall s :: Code(s) in StatusCodeTexts && |StatusCodeTexts[Code(s)]| > 0
  {
    CodesAreDistinct();
  }

  /** The configuration table is defined for 1, 2 and 3; the steamer table for 1 only. */
  lemma DiagnosticTextsDomains()
    ensures ConfigCodeTexts.Keys == {1, 2, 3}
    ensures SteamerCodeTexts.Keys == {1}
    ensures forall c :: c in ConfigCodeTexts ==> |ConfigCodeTexts[c]| > 0
    ensures forall c :: c in SteamerCodeTexts ==> |SteamerCodeTexts[c]| > 0
  {
  }
}
