/** The build-platform selection of the mesh deleter and of the platform-specific object
    deleter, and the gate both apply before doing anything. */
module Platforms {

  datatype PlatformSelection = AllPlatforms | DesktopOnly | QuestOnly

  /** Whether a feature with selection `sel` runs; `isQuestBuild` says whether the active build
      target is Android. */
  function Applies(sel: PlatformSelection, isQuestBuild: bool): (r: bool)
    ensures r <==> sel == AllPlatforms || (sel == DesktopOnly && !isQuestBuild) || (sel == QuestOnly && isQuestBuild)
  {
    var isDesktopBuild := !isQuestBuild;
    var applyForQuest := sel != DesktopOnly;
    var applyForDesktop := sel != QuestOnly;
    !((isQuestBuild && !applyForQuest) || (isDesktopBuild && !applyForDesktop))
  }
}
