/** The authority names of the application (AuthoritiesConstants). */
module Roles {

  const ADMIN: string := "ROLE_ADMIN"
  const USER: string := "ROLE_USER"
  const ANONYMOUS: string := "ROLE_ANONYMOUS"
}
