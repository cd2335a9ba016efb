/**
 Identifiers of the Windows UI Automation framework that the provider uses.
 They are owned by the operating system, not by this repository; the values
 below are the documented UI Automation identifiers. The one exception is
 the name in `Custom`: "custom" is the en-US localized name of that control
 type, which depends on the locale and is not an identifier. Nothing in the
 model depends on these values beyond the property identifiers being
 pairwise distinct.
 */
module Uia {

  type PropertyId = int
  type PatternId = int

  const ControlTypeProperty: PropertyId := 30003
  const LocalizedControlTypeProperty: PropertyId := 30004
  const NameProperty: PropertyId := 30005
  const IsKeyboardFocusableProperty: PropertyId := 30009
  const AutomationIdProperty: PropertyId := 30011
  const NativeWindowHandleProperty: PropertyId := 30020

  /** The marker a fragment puts first in a runtime ID so that the host appends its own part. */
  const AppendRuntimeId: int := 3

  /** A control type, reduced to the two members the provider reads. */
  datatype ControlType = ControlType(id: int, localizedName: string)

  const Custom: ControlType := ControlType(50025, "custom")

  /** The navigation directions of a fragment, whose enumeration codes are
      Parent 0, NextSibling 1, PreviousSibling 2, FirstChild 3, LastChild 4.
      `Unlisted(code)` stands for a value outside 0..4, which a caller can
      pass by casting an integer; a code in 0..4 is one of the named
      directions and is never written as `Unlisted`. */
  datatype NavigateDirection =
    | Parent
    | NextSibling
    | PreviousSibling
    | FirstChild
    | LastChild
    | Unlisted(code: int)
}
