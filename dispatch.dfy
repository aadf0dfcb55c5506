/**
 * The two drop-down menus of the main window. Picking an entry calls
 * `open_selected_litho` / `open_selected_char`, whose if/elif chains call
 * one technique opener each; every opener builds one `create_tech_window`
 * popup with a title, an image file and the image directory.
 */
module Dispatch {
  import opened Wrappers

  datatype Technique =
    | OpticalLitho | EbeamLitho | NanoimprintLitho | XrayLitho | UvLitho
    | Sem | Afm | Xrd | Raman | Ellipsometry
  {
    predicate IsLitho()
    {
      this in {OpticalLitho, EbeamLitho, NanoimprintLitho, XrayLitho, UvLitho}
    }
  }

  /** The arguments an opener passes to `create_tech_window`. */
  datatype TechPage = TechPage(title: string, image: string, dir: string)

  /** Entries of the lithography menu (`options1`). */
  const Options1: seq<string> := ["Optical Lithography", "Electron-beam Lithography",
                                  "Nanoimprint Lithography", "X-ray Lithography", "UV Lithography"]

  /** Entries of the characterization menu (`options2`). */
  const Options2: seq<string> := ["Scanning Electron Microscopy", "Atomic Force Microscopy",
                                  "X-ray Diffraction", "Raman Spectroscopy", "Ellipsometry"]

  /** The popup each opener creates (`open_optical_litho` … `open_ellipsometry_analysis`). */
  function Page(t: Technique): (p: TechPage)
    ensures p.dir == if t.IsLitho() then "litho_images" else "char_images"
  {
    match t
    case OpticalLitho => TechPage("Optical Lithography", "optical_litho.png", "litho_images")
    case EbeamLitho => TechPage("Electron-beam Lithography", "ebeam_litho.png", "litho_images")
    case NanoimprintLitho => TechPage("Nanoimprint Lithography", "nanoimprint.png", "litho_images")
    case XrayLitho => TechPage("X-ray Lithography", "xray_litho.gif", "litho_images")
    case UvLitho => TechPage("UV Lithography", "uv_litho.gif", "litho_images")
    case Sem => TechPage("Scanning Electron Microscopy", "sem_microscope.png", "char_images")
    case Afm => TechPage("Atomic Force Microscopy", "afm_diagram.png", "char_images")
    case Xrd => TechPage("X-ray Diffraction", "xrd_equipment.png", "char_images")
    case Raman => TechPage("Raman Spectroscopy", "raman_spectrometer.png", "char_images")
    case Ellipsometry => TechPage("Ellipsometry", "ellipsometer.png", "char_images")
  }

  /**
   * `open_selected_litho`: a lithography entry opens the popup titled with
   * that entry; any other string opens nothing.
   */
  function OpenSelectedLitho(technique: string): (r: Option<Technique>)
    ensures r.Some? <==> technique in Options1
    ensures r.Some? ==> r.value.IsLitho() && Page(r.value).title == technique
  {
    if technique == "Optical Lithography" then Some(OpticalLitho)
    else if technique == "Electron-beam Lithography" then Some(EbeamLitho)
    else if technique == "Nanoimprint Lithography" then Some(NanoimprintLitho)
    else if technique == "X-ray Lithography" then Some(XrayLitho)
    else if technique == "UV Lithography" then Some(UvLitho)
    else None
  }

  /**
   * `open_selected_char`: a characterization entry opens the popup titled
   * with that entry; any other string opens nothing.
   */
  function OpenSelectedChar(technique: string): (r: Option<Technique>)
    ensures r.Some? <==> technique in Options2
    ensures r.Some? ==> !r.value.IsLitho() && Page(r.value).title == technique
  {
    if technique == "Scanning Electron Microscopy" then Some(Sem)
    else if technique == "Atomic Force Microscopy" then Some(Afm)
    else if technique == "X-ray Diffraction" then Some(Xrd)
    else if technique == "Raman Spectroscopy" then Some(Raman)
    else if technique == "Ellipsometry" then Some(Ellipsometry)
    else None
  }

  /**
   * Each menu dispatches its entries to pairwise different openers, and
   * every technique of the menu's kind is reached by its own title.
   */
  lemma LithoMenuIsBijective(a: string, b: string, t: Technique)
    ensures OpenSelectedLitho(a).Some? && OpenSelectedLitho(a) == OpenSelectedLitho(b) ==> a == b
    ensures t.IsLitho() ==> OpenSelectedLitho(Page(t).title) == Some(t)
  {
  }

  lemma CharMenuIsBijective(a: string, b: string, t: Technique)
    ensures OpenSelectedChar(a).Some? && OpenSelectedChar(a) == OpenSelectedChar(b) ==> a == b
    ensures !t.IsLitho() ==> OpenSelectedChar(Page(t).title) == Some(t)
  {
  }

  /** No string opens something from both menus. */
  lemma MenusDisjoint(s: string)
    ensures !(OpenSelectedLitho(s).Some? && OpenSelectedChar(s).Some?)
  {
  }
}
