# Nature generator: theme recolouring

This project models the theme recolouring rule of the Maya nature generator
tool (`natureGeneratorUtil.py`) in Dafny, and proves properties of it.

- **Theme table** (`Themes`). `THEME_COLORS` maps the themes Spring, Autumn
  and Winter to a palette. Each palette gives a colour for each of six
  categories: leaf, trunk, petal, stem, grass and rock. Colours are triples
  of `real` constants. They are only copied, never computed.
- **Classifier** (`Classifier`). A material name is lower-cased. It is then
  tested for the keywords `leaf_`, `trunk_`, `petal_`, `stem`, `grass_` and
  `rock_`, in that order. The first keyword that occurs as a substring picks
  the category. A name with no keyword gets no category.
- **Writer** (`Recolor`). `apply_theme_colors_by_material` looks up the theme
  and stops at once if the theme is unknown. Otherwise it visits the
  materials in order. The target attribute is `baseColor` on an
  `aiStandardSurface` node and `color` on any other node. The category's
  colour is written to that attribute only when the material has a category
  and the attribute exists. The host scene is modelled by the class
  `Recolor.Scene`. Its field `attrs` maps each existing plug (`node.attr`)
  to its colour. The method `ApplyThemeColorsByMaterial` updates that map in
  place, one material per loop iteration. It is proved equal to the pure
  specification `ApplyTheme`.

## Model

| member | source | states |
|---|---|---|
| `Themes.ThemeColors` | natureGeneratorUtil.py:4-29 | The table has exactly the themes Spring, Autumn and Winter. Every palette has a colour for all six categories, and every component of every colour is in [0, 1]. |
| `Themes.LookupTheme` | natureGeneratorUtil.py:34-35 | `THEME_COLORS.get(theme)` returns nothing exactly when the theme is not in the table. Otherwise it returns exactly `THEME_COLORS[theme]`, which is complete and not empty. |
| `Classifier.Lower` | natureGeneratorUtil.py:47 | The model's lower-casing keeps the name's length, and each character is the ASCII lower-case form of the character at the same position. |
| `Classifier.Contains` | natureGeneratorUtil.py:50-61 | `k in s` holds exactly when `k` occurs at some position of `s`. |
| `Classifier.Keyword` | natureGeneratorUtil.py:50-61 | The keyword of `stem` is the category name itself. The keyword of every other category is its name followed by `_`. |
| `Classifier.Classify` | natureGeneratorUtil.py:47-63 | The if/elif chain. A chosen category's keyword occurs in the lower-cased name, and no keyword earlier in the chain occurs in it. No category means that none of the six keywords occurs. |
| `Classifier.ClassifyFirstMatch` | natureGeneratorUtil.py:47-61 | A name gets category `c` exactly when `c`'s keyword occurs in the lower-cased name and no keyword earlier in the if/elif chain occurs in it. |
| `Classifier.ClassifyNone` | natureGeneratorUtil.py:50-63 | A name gets no category exactly when none of the six keywords occurs in the lower-cased name. |
| `Classifier.ClassifyIgnoresCase` | natureGeneratorUtil.py:47-61 | Two names that differ only in letter case get the same category. |
| `Classifier.LeafWins` | natureGeneratorUtil.py:50-51 | A name containing `leaf_` is a leaf, whatever other keywords it contains. |
| `Classifier.BareStem` | natureGeneratorUtil.py:56-57 | `stem` matches without a trailing underscore: the name "Stem" is classified as a stem. |
| `Classifier.BareRock` | natureGeneratorUtil.py:50-63 | The other keywords need their underscore: the name "Rock" gets no category. |
| `Recolor.TargetAttr` | natureGeneratorUtil.py:46 | The attribute is `baseColor` exactly when the node type is `aiStandardSurface`. Otherwise it is `color`. |
| `Recolor.ColourFor` | natureGeneratorUtil.py:51-63 | With a palette that defines all six categories, a name gets no colour exactly when it contains none of the keywords. |
| `Recolor.ColourForEntry` | natureGeneratorUtil.py:51-63 | `colors.get(category)`: a name has a colour exactly when it has a category that the palette defines, and that colour is the palette's entry for the category. |
| `Recolor.Step` | natureGeneratorUtil.py:46-67 | Visiting one material creates no attribute. Only the material's target attribute can change, and only when the material has a category; it then gets the palette colour of that category. |
| `Recolor.ApplyAll` | natureGeneratorUtil.py:45-67 | Visiting the materials creates no attribute. An attribute that some visited material aims at ends with the palette colour of its node's category. Every other attribute keeps its value. |
| `Recolor.ApplyTheme` | natureGeneratorUtil.py:32-67 | An unknown theme changes nothing. No attribute is created. An existing attribute that a visited, classified material aims at gets exactly `THEME_COLORS[theme][category]`. Every other attribute is unchanged. |
| `Recolor.KnownThemeColours` | natureGeneratorUtil.py:4-29 | A known theme and a classified name always give a colour, and it is the table's entry for that theme and category. |
| `Recolor.VisitedMaterialRecoloured` | natureGeneratorUtil.py:51-67 | A visited material of category `c` whose target attribute exists ends with that attribute equal to the theme's colour for `c`. |
| `Recolor.UnmatchedUnchanged` | natureGeneratorUtil.py:62-67 | If a node's name contains none of the keywords, its attributes keep their values under every theme. |
| `Recolor.ApplyThemeIdempotent` | natureGeneratorUtil.py:32-67 | Applying the same theme to the same materials a second time changes nothing. |
| `Recolor.Scene.ApplyThemeColorsByMaterial` | natureGeneratorUtil.py:32-67 | The in-place loop leaves the scene equal to `ApplyTheme` of the old scene. An unknown theme returns early with nothing changed. The set of existing attributes is preserved. Each attribute is either recoloured from the table or left as it was. |

## Left out

- The dialog in `natureGeneratorUi.py` is not part of this model. It covers window layout, the stylesheet, icon loading and window management, and it is Qt user-interface code bound to the Maya main window.
- The host scene queries are not modelled: `cmds.listRelatives`, `cmds.listConnections`, `cmds.ls` and `cmds.nodeType`. They are replaced by an input sequence of `Material(name, nodeType)` records in the order the three nested loops (meshes, shading groups, materials) would visit them. The model does not build that sequence from an object.
- `cmds.objExists` becomes membership of the plug in the `attrs` map, and `cmds.setAttr` becomes an update of an existing key. Attribute types and attributes other than colours are not modelled.
- Recolor.ApplyTheme, Recolor.ApplyAll, Recolor.Step, Recolor.VisitedMaterialRecoloured and Recolor.Scene.ApplyThemeColorsByMaterial assume that every `cmds.setAttr` succeeds. In Maya a locked plug, or a plug with an incoming connection such as a texture wired into `color`, makes `setAttr` raise. The source does not catch that exception at natureGeneratorUtil.py:66-67, so the walk would stop there: earlier materials stay recoloured, later ones are skipped, and the exception reaches the caller. The model has no locked or connected plugs, so it does not capture this abort.
- The `cmds.warning` message for an unknown theme is host output. Only the early return is modelled.
- Classifier.Lower: folds only the ASCII letters A–Z. Python's `str.lower` also folds non-ASCII characters, and this can change how a name is classified. For example, U+212A KELVIN SIGN lower-cases to ASCII `k`, so Python classes "ROC\u212A_" as a rock while the model gives it no category. Python's `lower` can also change a string's length (U+0130 lower-cases to two characters), so "same length" holds in the model only. Maya node names are ASCII, so these cases do not arise for real materials.
- Colours are exact `real` constants, not floating-point values. The model never computes with them.
- Random placement, scaling, minimum-distance rejection and surface snapping are not in the modelled file. They are not part of this model.
