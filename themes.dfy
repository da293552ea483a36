/**
  The theme table of the nature generator: for each theme name, the colour
  given to each of the six material categories.
 */
module Themes {
  import opened Wrappers

  /** The six material categories the recolouring rule knows about. */
  datatype Category = Leaf | Trunk | Petal | Stem | Grass | Rock

  /** An RGB triple as passed to the host's `double3` attribute. The
      components are constants that are only copied, never computed. */
  datatype Color = Color(r: real, g: real, b: real)

  /** The key under which a theme's palette stores a category's colour. */
  function CategoryKey(c: Category): string
  {
    match c
    case Leaf => "leaf"
    case Trunk => "trunk"
    case Petal => "petal"
    case Stem => "stem"
    case Grass => "grass"
    case Rock => "rock"
  }

  predicate InUnit(x: real)
  {
    0.0 <= x <= 1.0
  }

  /** Every component of the colour lies in [0, 1]. */
  predicate UnitColor(col: Color)
  {
    InUnit(col.r) && InUnit(col.g) && InUnit(col.b)
  }

  /** A palette names a colour in [0, 1]^3 for every category. */
  predicate Complete(palette: map<string, Color>)
  {
    forall c: Category :: CategoryKey(c) in palette && UnitColor(palette[CategoryKey(c)])
  }

  /** The theme table: theme name to palette (category key to colour). */
  function ThemeColors(): (table: map<string, map<string, Color>>)
    ensures table.Keys == {"Spring", "Autumn", "Winter"}
    ensures forall theme | theme in table :: Complete(table[theme])
  {
    map[
      "Spring" := map[
        "leaf"  := Color(0.647, 0.843, 0.169),
        "trunk" := Color(0.553, 0.388, 0.153),
        "petal" := Color(0.957, 0.545, 1.000),
        "stem"  := Color(0.647, 0.843, 0.169),
        "grass" := Color(0.647, 0.843, 0.169),
        "rock"  := Color(0.431, 0.522, 0.384)
      ],
      "Autumn" := map[
        "leaf"  := Color(0.863, 0.459, 0.188),
        "trunk" := Color(0.475, 0.325, 0.137),
        "petal" := Color(1.0, 0.6, 0.3),
        "stem"  := Color(0.4, 0.3, 0.1),
        "grass" := Color(0.8, 0.6, 0.2),
        "rock"  := Color(0.5, 0.4, 0.3)
      ],
      "Winter" := map[
        "leaf"  := Color(0.4627, 0.8118, 0.7529),
        "trunk" := Color(0.3686, 0.2941, 0.2275),
        "petal" := Color(0.620, 0.529, 0.941),
        "stem"  := Color(0.4627, 0.8118, 0.7529),
        "grass" := Color(0.639, 0.471, 0.882),
        "rock"  := Color(0.8, 0.8, 0.8)
      ]
    ]
  }

  /** `THEME_COLORS.get(theme)`: the palette of a known theme, or nothing. */
  function LookupTheme(theme: string): (palette: Option<map<string, Color>>)
    ensures palette.None? <==> theme !in ThemeColors()
    ensures palette.Some? ==> palette.value == ThemeColors()[theme]
    ensures palette.Some? ==> Complete(palette.value) && |palette.value| > 0
  {
    var table := ThemeColors();
    if theme in table then
      assert CategoryKey(Leaf) in table[theme];
      Some(table[theme])
    else None
  }
}
