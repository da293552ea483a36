/**
  `apply_theme_colors_by_material`: every material reached from an object is
  classified by name, and the category's theme colour is written to the
  material's colour attribute when that attribute exists.

  The host scene is the map `attrs` from attribute plugs (`mat.attr`) to
  their colour values; its keys are exactly the plugs that exist. The
  host's traversal from the object to its meshes, shading groups and
  materials is given as the sequence of materials in visiting order.
 */
module Recolor {
  import opened Wrappers
  import opened Themes
  import opened Classifier

  /** A material reached by the traversal: its node name and node type. */
  datatype Material = Material(name: string, nodeType: string)

  /** An attribute of a node, written `node.attr` by the host. */
  datatype Plug = Plug(node: string, attr: string)

  /** The colour attribute written for a material of the given node type. */
  function TargetAttr(nodeType: string): (attr: string)
    ensures attr == "baseColor" <==> nodeType == "aiStandardSurface"
    ensures attr != "baseColor" ==> attr == "color"
  {
    if nodeType == "aiStandardSurface" then "baseColor" else "color"
  }

  /** The colour the palette gives a material name: the palette entry of its
      category, or nothing when it has no category (or the palette lacks it).
      With a complete palette, a name gets no colour exactly when it mentions
      none of the keywords. */
  function ColourFor(palette: map<string, Color>, name: string): (r: Option<Color>)
    ensures Complete(palette) ==> (r.None? <==> forall c: Category :: !Mentions(name, c))
  {
    ClassifyNone(name);
    match Classify(name)
    case None => None
    case Some(c) => if CategoryKey(c) in palette then Some(palette[CategoryKey(c)]) else None
  }

  /** `colors.get(category)`: a name has a colour exactly when it has a
      category that the palette defines, and that colour is the palette's
      entry for the category. */
  lemma ColourForEntry(palette: map<string, Color>, name: string)
    ensures ColourFor(palette, name).Some? <==>
              Classify(name).Some? && CategoryKey(Classify(name).value) in palette
    ensures ColourFor(palette, name).Some? ==>
              ColourFor(palette, name).value == palette[CategoryKey(Classify(name).value)]
  {
  }

  /** The plug a write for `m` goes to. */
  function PlugOf(m: Material): Plug
  {
    Plug(m.name, TargetAttr(m.nodeType))
  }

  /** Visiting `m` is meant to write to plug `p`: `m` has a colour and `p`
      is its target attribute. */
  predicate Aims(palette: map<string, Color>, m: Material, p: Plug)
  {
    ColourFor(palette, m.name).Some? && PlugOf(m) == p
  }

  /** Some visited material is meant to write to plug `p`. */
  predicate Targeted(palette: map<string, Color>, mats: seq<Material>, p: Plug)
  {
    exists i :: 0 <= i < |mats| && Aims(palette, mats[i], p)
  }

  /** The effect of visiting one material: write its colour to its target
      attribute if it has a colour and the attribute exists. */
  function Step(attrs: map<Plug, Color>, palette: map<string, Color>, m: Material): (r: map<Plug, Color>)
    ensures r.Keys == attrs.Keys
    ensures forall p | p in attrs && !Aims(palette, m, p) :: r[p] == attrs[p]
    ensures forall p | p in attrs && Aims(palette, m, p) :: Some(r[p]) == ColourFor(palette, p.node)
  {
    var colour := ColourFor(palette, m.name);
    if colour.Some? && PlugOf(m) in attrs then attrs[PlugOf(m) := colour.value] else attrs
  }

  /** A plug is targeted by `mats` exactly when it is targeted by all but
      the last material or aimed at by the last one. */
  lemma TargetedSnoc(palette: map<string, Color>, mats: seq<Material>, p: Plug)
    requires mats != []
    ensures Targeted(palette, mats, p) <==>
              Targeted(palette, mats[..|mats| - 1], p) || Aims(palette, mats[|mats| - 1], p)
  {
    var init := mats[..|mats| - 1];
    if Targeted(palette, mats, p) {
      var i :| 0 <= i < |mats| && Aims(palette, mats[i], p);
      if i < |init| { assert init[i] == mats[i]; }
    }
    if Targeted(palette, init, p) {
      var i :| 0 <= i < |init| && Aims(palette, init[i], p);
      assert mats[i] == init[i];
    }
  }

  /** The effect of visiting `mats` in order. No attribute is created, an
      attribute that some material aims at carries the colour of that
      material's name, and every other attribute keeps its value. */
  function ApplyAll(attrs: map<Plug, Color>, palette: map<string, Color>, mats: seq<Material>): (r: map<Plug, Color>)
    ensures r.Keys == attrs.Keys
    ensures forall p | p in attrs && !Targeted(palette, mats, p) :: r[p] == attrs[p]
    ensures forall p | p in attrs && Targeted(palette, mats, p) :: Some(r[p]) == ColourFor(palette, p.node)
    decreases |mats|
  {
    if mats == [] then attrs
    else
      var before := ApplyAll(attrs, palette, mats[..|mats| - 1]);
      var r := Step(before, palette, mats[|mats| - 1]);
      assert forall p | p in attrs :: Targeted(palette, mats, p) <==>
        Targeted(palette, mats[..|mats| - 1], p) || Aims(palette, mats[|mats| - 1], p) by {
        forall p | p in attrs
          ensures Targeted(palette, mats, p) <==>
            Targeted(palette, mats[..|mats| - 1], p) || Aims(palette, mats[|mats| - 1], p)
        {
          TargetedSnoc(palette, mats, p);
        }
      }
      r
  }

  /** The whole call: an unknown theme (or an empty palette) changes
      nothing; otherwise the materials are visited with the theme's palette. */
  function ApplyTheme(attrs: map<Plug, Color>, theme: string, mats: seq<Material>): (r: map<Plug, Color>)
    ensures theme !in ThemeColors() ==> r == attrs
    ensures r.Keys == attrs.Keys
    ensures forall p | p in attrs ::
              r[p] == (if theme in ThemeColors() && Targeted(ThemeColors()[theme], mats, p)
                       then ThemeColors()[theme][CategoryKey(Classify(p.node).value)]
                       else attrs[p])
  {
    match LookupTheme(theme)
    case None => attrs
    case Some(palette) =>
      if |palette| == 0 then attrs
      else
        var r := ApplyAll(attrs, palette, mats);
        assert forall p | p in attrs && Targeted(palette, mats, p) ::
          Classify(p.node).Some? && CategoryKey(Classify(p.node).value) in palette by {
          forall p | p in attrs && Targeted(palette, mats, p)
            ensures Classify(p.node).Some? && CategoryKey(Classify(p.node).value) in palette
          {
            var i :| 0 <= i < |mats| && Aims(palette, mats[i], p);
          }
        }
        r
  }

  /** With a known theme, a classified name always gets its category's
      colour from the table. */
  lemma KnownThemeColours(theme: string, name: string, c: Category)
    requires theme in ThemeColors()
    requires Classify(name) == Some(c)
    ensures ColourFor(ThemeColors()[theme], name) == Some(ThemeColors()[theme][CategoryKey(c)])
  {
    assert Complete(ThemeColors()[theme]);
  }

  /** A visited material of category `c` whose target attribute exists ends
      with that attribute set to the theme's colour for `c`. */
  lemma VisitedMaterialRecoloured(attrs: map<Plug, Color>, theme: string, mats: seq<Material>, i: int, c: Category)
    requires theme in ThemeColors()
    requires 0 <= i < |mats|
    requires Classify(mats[i].name) == Some(c)
    requires PlugOf(mats[i]) in attrs
    ensures ApplyTheme(attrs, theme, mats)[PlugOf(mats[i])] == ThemeColors()[theme][CategoryKey(c)]
  {
    KnownThemeColours(theme, mats[i].name, c);
    assert Aims(ThemeColors()[theme], mats[i], PlugOf(mats[i]));
  }

  /** Applying the same theme to the same materials a second time changes
      nothing more. */
  lemma ApplyThemeIdempotent(attrs: map<Plug, Color>, theme: string, mats: seq<Material>)
    ensures ApplyTheme(ApplyTheme(attrs, theme, mats), theme, mats) == ApplyTheme(attrs, theme, mats)
  {
    var once := ApplyTheme(attrs, theme, mats);
    var twice := ApplyTheme(once, theme, mats);
    assert forall p | p in twice :: twice[p] == once[p];
  }

  /** A material whose name mentions no keyword never has an attribute
      written, whatever the theme. */
  lemma UnmatchedUnchanged(attrs: map<Plug, Color>, theme: string, mats: seq<Material>, p: Plug)
    requires p in attrs
    requires forall c: Category :: !Mentions(p.node, c)
    ensures ApplyTheme(attrs, theme, mats)[p] == attrs[p]
  {
    ClassifyNone(p.node);
    if theme in ThemeColors() {
      var palette := ThemeColors()[theme];
      forall i | 0 <= i < |mats| ensures !Aims(palette, mats[i], p) {
      }
    }
  }

  /** The host scene, reduced to the colour attributes that exist. */
  class Scene {
    var attrs: map<Plug, Color>

    constructor(initial: map<Plug, Color>)
      ensures attrs == initial
    {
      attrs := initial;
    }

    /** Recolours `materials` (visited in this order) with `theme`. */
    method ApplyThemeColorsByMaterial(theme: string, materials: seq<Material>)
      modifies this
      ensures attrs == ApplyTheme(old(attrs), theme, materials)
      ensures theme !in ThemeColors() ==> attrs == old(attrs)
      ensures attrs.Keys == old(attrs).Keys
      ensures forall p | p in attrs ::
                attrs[p] == (if theme in ThemeColors() && Targeted(ThemeColors()[theme], materials, p)
                             then ThemeColors()[theme][CategoryKey(Classify(p.node).value)]
                             else old(attrs)[p])
    {
      var colors := LookupTheme(theme);
      if colors.None? || |colors.value| == 0 {
        assert attrs == ApplyTheme(old(attrs), theme, materials);
        return;
      }
      var palette := colors.value;
      ghost var start := attrs;
      var i := 0;
      assert materials[..i] == [];
      assert ApplyAll(start, palette, materials[..i]) == start;
      while i < |materials|
        invariant 0 <= i <= |materials|
        invariant attrs == ApplyAll(start, palette, materials[..i])
      {
        var mat := materials[i];
        ghost var expected := Step(attrs, palette, mat);
        var attr := TargetAttr(mat.nodeType);
        var colour := ColourFor(palette, mat.name);
        if colour.Some? && Plug(mat.name, attr) in attrs {
          attrs := attrs[Plug(mat.name, attr) := colour.value];
        }
        assert attrs == expected;
        ghost var visited := materials[..i + 1];
        assert visited[..|visited| - 1] == materials[..i] && visited[|visited| - 1] == mat;
        assert ApplyAll(start, palette, visited) == expected;
        i := i + 1;
        assert materials[..i] == visited;
      }
      assert materials[..i] == materials;
      assert attrs == ApplyTheme(old(attrs), theme, materials);
    }
  }
}
