/** The member entity, shared by the services that look members up. */
module Members {

  /** `UserRole`; the role names follow the authorities ROLE_MENTEE, ROLE_MENTOR and ROLE_ADMIN. */
  datatype UserRole = Mentee | Mentor | Admin

  datatype Member = Member(id: int, name: string, nickname: string, email: string, userRole: UserRole)
}
