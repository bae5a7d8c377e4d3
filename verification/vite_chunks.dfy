/**
 * The build's `manualChunks` classifier: which vendor chunk a module id goes
 * to, decided by an ordered chain of substring tests.
 */
module ViteChunks {
  import opened Wrappers
  import opened Strings

  const VendorReact := "vendor-react"
  const VendorEditor := "vendor-editor"
  const VendorUi := "vendor-ui"
  const Vendor := "vendor"

  /**
   * `manualChunks(id)`: nothing for ids outside node_modules; otherwise
   * "react" is checked first, then "vditor", then "lucide-react" or "motion",
   * and everything else is plain vendor code.
   */
  function ManualChunk(id: string): (r: Option<string>)
    ensures r.None? <==> !Contains(id, "node_modules")
    ensures r == Some(VendorReact) <==> Contains(id, "node_modules") && Contains(id, "react")
    ensures r == Some(VendorEditor) <==> Contains(id, "node_modules") && !Contains(id, "react") && Contains(id, "vditor")
    ensures r == Some(VendorUi) <==>
      Contains(id, "node_modules") && !Contains(id, "react") && !Contains(id, "vditor") &&
      (Contains(id, "lucide-react") || Contains(id, "motion"))
    ensures r == Some(Vendor) <==>
      Contains(id, "node_modules") && !Contains(id, "react") && !Contains(id, "vditor") &&
      !Contains(id, "lucide-react") && !Contains(id, "motion")
  {
    if !Contains(id, "node_modules") then None
    else if Contains(id, "react") then Some(VendorReact)
    else if Contains(id, "vditor") then Some(VendorEditor)
    else if Contains(id, "lucide-react") || Contains(id, "motion") then Some(VendorUi)
    else Some(Vendor)
  }

  /** Every occurrence of "lucide-react" holds an occurrence of "react", seven characters in. */
  lemma LucideContainsReact(id: string)
    requires Contains(id, "lucide-react")
    ensures Contains(id, "react")
  {
    var i :| OccursAt(id, "lucide-react", i);
    assert OccursAt(id, "lucide-react", i);
    assert id[i + 7..i + 12] == id[i..i + 12][7..12] == "react";
    assert OccursAt(id, "react", i + 7);
  }

  /** So the lucide-react icons are bundled with React, never in the UI chunk. */
  lemma LucideLandsInReact(id: string)
    requires Contains(id, "node_modules") && Contains(id, "lucide-react")
    ensures ManualChunk(id) == Some(VendorReact)
  {
    LucideContainsReact(id);
  }

  /** The UI chunk receives exactly the node_modules ids naming "motion" but neither "react" nor "vditor". */
  lemma VendorUiIsMotionOnly(id: string)
    ensures ManualChunk(id) == Some(VendorUi) <==>
      Contains(id, "node_modules") && Contains(id, "motion") && !Contains(id, "react") && !Contains(id, "vditor")
  {
    if Contains(id, "lucide-react") {
      LucideContainsReact(id);
    }
  }
  /**
   * The classifier with the lucide-react test moved ahead of the React test,
   * so that the icons join the animation library as the comment over that
   * test says; every other id is classified as before.
   */
  function ManualChunkIconsFirst(id: string): (r: Option<string>)
    ensures Contains(id, "node_modules") && Contains(id, "lucide-react") ==> r == Some(VendorUi)
    ensures !Contains(id, "lucide-react") ==> r == ManualChunk(id)
  {
    if !Contains(id, "node_modules") then None
    else if Contains(id, "lucide-react") then Some(VendorUi)
    else ManualChunk(id)
  }

  /** With the icons first, the UI chunk gets the lucide-react ids and the motion ids the React test leaves. */
  lemma IconsFirstFillsUi(id: string)
    ensures ManualChunkIconsFirst(id) == Some(VendorUi) <==>
      Contains(id, "node_modules") &&
      (Contains(id, "lucide-react") || (Contains(id, "motion") && !Contains(id, "react") && !Contains(id, "vditor")))
  {
    VendorUiIsMotionOnly(id);
  }
}
