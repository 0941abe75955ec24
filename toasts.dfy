/** The notifications the pages raise through `useToast`: a title, a text and
    whether it is shown as an error. */
module Toasts {
  datatype Variant = Plain | Destructive

  datatype Toast = Toast(title: string, description: string, variant: Variant)
}
